/** The reconciler as it runs: it changes the stored resource, the release storage and a
    status object in place, and does exactly what the step function says. */
module HelmOperator {
  import opened Wrappers
  import opened HelmStatus
  import opened ReleaseManager
  import opened Reconciler

  class Cluster {
    const storage: Storage
    var cr: Option<Resource>
    var live: set<string>
    var calls: seq<Call>

    constructor (w: World)
      ensures fresh(storage) && View() == w && calls == []
    {
      storage := new Storage(w.history);
      cr, live, calls := w.cr, w.live, [];
    }

    function View(): World
      reads this, storage
    {
      World(cr, storage.history, live)
    }

    function After(result: Result): Step
      reads this, storage
    {
      Step(View(), result, calls)
    }

    method WriteStatus(status: Status, o: Write) returns (ok: bool)
      modifies this`cr, this`calls
      ensures View() == PutStatus(old(View()), status, o) && ok == o.Stored?
      ensures calls == old(calls) + [StatusCall]
    {
      calls := calls + [StatusCall];
      if cr.Some? && !o.Rejected? {
        cr := Some(cr.value.(status := status));
      }
      ok := o.Stored?;
    }

    method WriteFinalizers(fs: set<Finalizer>, o: Write) returns (ok: bool)
      modifies this`cr, this`calls
      ensures View() == PutFinalizers(old(View()), fs, o) && ok == o.Stored?
      ensures calls == old(calls) + [UpdateCall]
    {
      calls := calls + [UpdateCall];
      if cr.Some? && !o.Rejected? {
        if cr.value.deleting && fs == {} {
          cr := None;
        } else {
          cr := Some(cr.value.(finalizers := fs));
        }
      }
      ok := o.Stored?;
    }

    /** A call of Helm that leaves this storage and these objects behind. */
    method CallHelm(call: Call, history: History, objects: set<string>)
      modifies this`live, this`calls, storage
      ensures View() == old(View()).(history := history, live := objects)
      ensures calls == old(calls) + [call]
    {
      calls := calls + [call];
      storage.history := history;
      live := objects;
    }
  }

  class HelmOperatorReconciler {
    const env: Env
    const cluster: Cluster

    constructor (env: Env, cluster: Cluster)
      ensures this.env == env && this.cluster == cluster
    {
      this.env, this.cluster := env, cluster;
    }

    /** Sets a failure condition, tries to store it, and fails. */
    method Fail(status: HelmAppStatus, kind: ConditionType, reason: Reason, oc: Outcomes) returns (result: Result)
      modifies cluster`cr, cluster`calls, status
      ensures cluster.After(result) == FailWith(old(cluster.View()), old(status.Value()), kind, reason, oc,
                                                old(cluster.calls))
    {
      status.SetCondition(Condition(kind, IsTrue, reason, oc.message, 0), oc.now);
      var _ := cluster.WriteStatus(status.Value(), oc.statusWrite);
      result := Failed;
    }

    method RemoveFinalizers(cr: Resource, oc: Outcomes) returns (result: Result)
      modifies cluster`cr, cluster`calls
      ensures cluster.After(result) == StripFinalizers(old(cluster.View()), cr, oc, old(cluster.calls))
    {
      var ok := cluster.WriteFinalizers(cr.finalizers - {UninstallFinalizer, LegacyFinalizer}, oc.update);
      result := if ok && oc.deletionSeen then Finished else Failed;
    }

    method WaitAndStrip(cr: Resource, status: HelmAppStatus, oc: Outcomes) returns (result: Result)
      modifies cluster, status
      ensures cluster.After(result) == AfterUninstall(env, old(cluster.View()), cr, old(status.Value()), oc,
                                                      old(cluster.calls))
    {
      if HasAnnotation(cr.annotations.uninstallWait) && status.deployedRelease.Some?
        && status.deployedRelease.value.manifest != "" {
        var manifest := status.deployedRelease.value.manifest;
        cluster.calls := cluster.calls + [CleanupCall(manifest)];
        var cleaned := CleanupRelease(env.parse(manifest), cluster.live, oc.cleanup);
        if cleaned.CleanupFailed? {
          cluster.live := oc.liveAfterCleanup;
          status.SetCondition(Condition(ReleaseFailed, IsTrue, UninstallError, oc.message, 0), oc.now);
          var _ := cluster.WriteStatus(status.Value(), oc.lastStatusWrite);
          return Failed;
        }
        if cleaned.DeletedAgain? {
          cluster.live := oc.liveAfterCleanup;
          return Requeue(PeriodOf(env, cr.annotations));
        }
        status.RemoveCondition(ReleaseFailed);
      }
      result := RemoveFinalizers(cr, oc);
    }

    /** Updates the storage and the status object after a release is uninstalled or found gone. */
    method NoteUninstalled(cr: Resource, status: HelmAppStatus, oc: Outcomes)
      requires status.Value() == cr.status && !oc.uninstall.UninstallFails?
      modifies cluster, cluster.storage, status
      ensures cluster.calls == old(cluster.calls) + [UninstallCall]
      ensures cluster.View() == WorldAfterUninstall(old(cluster.View()), oc)
      ensures status.Value() == DeletionStatus(cr, oc.uninstall.Uninstalled?, oc.now)
    {
      status.RemoveCondition(ReleaseFailed);
      var wait := HasAnnotation(cr.annotations.uninstallWait);
      if oc.uninstall.UninstallNotFound? {
        cluster.calls := cluster.calls + [UninstallCall];
      } else {
        cluster.CallHelm(UninstallCall, oc.uninstall.history, oc.uninstall.live);
        if !wait {
          status.SetCondition(Condition(Deployed, IsFalse, UninstallSuccessful, "", 0), oc.now);
          status.deployedRelease := None;
        }
      }
      if wait {
        status.SetCondition(Condition(Deployed, IsFalse, UninstallSuccessful, WAITING, 0), oc.now);
      }
    }

    method TerminateUninstalled(cr: Resource, status: HelmAppStatus, oc: Outcomes) returns (result: Result)
      requires cluster.calls == [] && status.Value() == cr.status && !oc.uninstall.UninstallFails?
      modifies cluster, cluster.storage, status
      ensures cluster.After(result) == FinishDeletion(env, old(cluster.View()), cr, oc)
    {
      NoteUninstalled(cr, status, oc);
      assert cluster.calls == [UninstallCall];
      var ok := cluster.WriteStatus(status.Value(), oc.statusWrite);
      assert cluster.calls == [UninstallCall, StatusCall];
      if !ok {
        return Failed;
      }
      result := WaitAndStrip(cr, status, oc);
    }

    method Terminate(cr: Resource, status: HelmAppStatus, oc: Outcomes) returns (result: Result)
      requires cluster.calls == [] && status.Value() == cr.status
      modifies cluster, cluster.storage, status
      ensures cluster.After(result) == ReconcileDeletion(env, old(cluster.View()), cr, oc)
    {
      if UninstallFinalizer !in cr.finalizers && LegacyFinalizer !in cr.finalizers {
        return Finished;
      }
      if oc.uninstall.UninstallFails? {
        cluster.CallHelm(UninstallCall, oc.uninstall.history, oc.uninstall.live);
        result := Fail(status, ReleaseFailed, UninstallError, oc);
        return;
      }
      result := TerminateUninstalled(cr, status, oc);
    }

    /** Stores the status that says `r` is deployed. */
    method Conclude(cr: Resource, status: HelmAppStatus, r: Release, reason: Reason, oc: Outcomes)
      returns (result: Result)
      modifies cluster`cr, cluster`calls, status
      ensures cluster.After(result)
              == Finish(env, old(cluster.View()), cr, DeployedStatus(old(status.Value()), r, reason, oc.now), oc,
                        old(cluster.calls))
    {
      status.SetCondition(Condition(Deployed, IsTrue, reason, Notes(r), 0), oc.now);
      status.deployedRelease := Some(AppRelease(r.name, r.manifest));
      var ok := cluster.WriteStatus(status.Value(), oc.statusWrite);
      result := if ok then Requeue(PeriodOf(env, cr.annotations)) else Failed;
    }

    method Install(cr: Resource, status: HelmAppStatus, oc: Outcomes) returns (result: Result)
      requires cluster.calls == [SyncCall]
      modifies cluster, cluster.storage, status
      ensures cluster.After(result) == InstallStage(env, old(cluster.View()), cr, old(status.Value()), oc)
    {
      cluster.CallHelm(InstallCall, oc.install.history, oc.install.live);
      if oc.install.InstallFails? {
        result := Fail(status, ReleaseFailed, InstallError, oc);
        return;
      }
      status.RemoveCondition(ReleaseFailed);
      var ok := cluster.WriteFinalizers(cr.finalizers + {UninstallFinalizer}, oc.update);
      if !ok || oc.hookFails {
        return Failed;
      }
      result := Conclude(cr, status, oc.install.release, InstallSuccessful, oc);
    }

    method Upgrade(cr: Resource, status: HelmAppStatus, oc: Outcomes) returns (result: Result)
      modifies cluster, cluster.storage, status
      ensures cluster.After(result) == UpgradeStage(env, old(cluster.View()), cr, old(status.Value()), oc,
                                                    old(cluster.calls))
    {
      var force := HasAnnotation(cr.annotations.upgradeForce);
      cluster.CallHelm(UpgradeCall(force), oc.upgrade.history, oc.upgrade.live);
      if !oc.upgrade.UpgradedTo? {
        if oc.upgrade.UpgradeNeedsRollback? {
          var forceRollback := ReadBoolWithDefault(cr.annotations.rollbackForce, true);
          cluster.CallHelm(RollbackCall(forceRollback), oc.rollbackHistory, oc.rollbackLive);
        }
        result := Fail(status, ReleaseFailed, UpgradeError, oc);
        return;
      }
      status.RemoveCondition(ReleaseFailed);
      if oc.hookFails {
        return Failed;
      }
      result := Conclude(cr, status, oc.upgrade.release, UpgradeSuccessful, oc);
    }

    method ReconcileRelease(cr: Resource, status: HelmAppStatus, deployed: Release, oc: Outcomes)
      returns (result: Result)
      modifies cluster, status
      ensures cluster.After(result)
              == ReconcileStage(env, old(cluster.View()), cr, old(status.Value()), deployed, oc, old(cluster.calls))
    {
      status.RemoveCondition(ReleaseFailed);
      cluster.calls := cluster.calls + [ReconcileCall];
      cluster.live := oc.liveAfterReconcile;
      if oc.reconcileFails {
        result := Fail(status, Irreconcilable, ReconcileError, oc);
        return;
      }
      status.RemoveCondition(Irreconcilable);
      if oc.hookFails {
        return Failed;
      }
      var reason := if deployed.version == 1 then InstallSuccessful else UpgradeSuccessful;
      status.SetCondition(Condition(Deployed, IsTrue, reason, Notes(deployed), 0), oc.now);
      status.deployedRelease := Some(AppRelease(deployed.name, deployed.manifest));
      result := Requeue(PeriodOf(env, cr.annotations));
      if status.Value() != cr.status {
        var ok := cluster.WriteStatus(status.Value(), oc.statusWrite);
        if !ok {
          result := Failed;
        }
      }
    }

    method Maintain(cr: Resource, status: HelmAppStatus, deployed: Release, upgrade: bool, oc: Outcomes)
      returns (result: Result)
      requires cluster.calls == [SyncCall]
      modifies cluster, cluster.storage, status
      ensures cluster.After(result) == InstalledStage(env, old(cluster.View()), cr, old(status.Value()), deployed,
                                                      upgrade, oc)
    {
      if UninstallFinalizer !in cr.finalizers && LegacyFinalizer !in cr.finalizers {
        var ok := cluster.WriteFinalizers(cr.finalizers + {UninstallFinalizer}, oc.update);
        if !ok {
          return Failed;
        }
      }
      if upgrade {
        result := Upgrade(cr, status, oc);
      } else {
        result := ReconcileRelease(cr, status, deployed, oc);
      }
    }

    method Establish(cr: Resource, status: HelmAppStatus, oc: Outcomes) returns (result: Result)
      requires cluster.calls == [] && status.Value() == cr.status
      modifies cluster, cluster.storage, status
      ensures cluster.After(result) == ReconcileLive(env, old(cluster.View()), cr, oc)
    {
      status.SetCondition(Condition(Initialized, IsTrue, NoReason, "", 0), oc.now);
      var manager := new Manager(cluster.storage);
      cluster.calls := cluster.calls + [SyncCall];
      var synced := manager.Sync(Candidate(env, cr.spec), oc.sync);
      if !synced {
        result := Fail(status, Irreconcilable, ReconcileError, oc);
        return;
      }
      status.RemoveCondition(Irreconcilable);
      if !manager.isInstalled {
        result := Install(cr, status, oc);
      } else {
        result := Maintain(cr, status, manager.deployedRelease.value, manager.isUpgradeRequired, oc);
      }
    }

    /** One pass. */
    method Reconcile(oc: Outcomes) returns (result: Result)
      requires cluster.calls == []
      modifies cluster, cluster.storage
      ensures cluster.After(result) == Reconciler.Reconcile(env, old(cluster.View()), oc)
    {
      if oc.getFails {
        return Failed;
      }
      if cluster.cr.None? {
        return Finished;
      }
      var cr := cluster.cr.value;
      if oc.managerFails || cr.annotations.reconcilePeriod.BadPeriod? {
        return Failed;
      }
      var status := new HelmAppStatus(cr.status);
      if cr.deleting {
        result := Terminate(cr, status, oc);
      } else {
        result := Establish(cr, status, oc);
      }
    }
  }
}
