/** What an error-free pass leaves behind, and that fault-free passes then change nothing more. */
module Convergence {
  import opened Wrappers
  import opened HelmStatus
  import opened ReleaseManager
  import opened Reconciler
  import opened ReconcilerRuns

  /** The stored status says that release `r` is deployed and nothing is wrong. */
  ghost predicate Says(cr: Resource, r: Release, reason: Reason) {
    var cs := cr.status.conditions;
    && Guarded(cr.finalizers) && DistinctKinds(cs)
    && HasCondition(cs, Initialized, NoReason, "")
    && HasCondition(cs, Deployed, reason, Notes(r))
    && Find(cs, ReleaseFailed).None? && Find(cs, Irreconcilable).None?
    && cr.status.deployedRelease == Some(AppRelease(r.name, r.manifest))
  }

  ghost predicate HasCondition(cs: seq<Condition>, kind: ConditionType, reason: Reason, message: string) {
    var c := Find(cs, kind);
    c.Some? && c.value.status == IsTrue && c.value.reason == reason && c.value.message == message
  }

  ghost predicate Healthy(st: Status) {
    && DistinctKinds(st.conditions)
    && HasCondition(st.conditions, Initialized, NoReason, "")
    && Find(st.conditions, Irreconcilable).None?
  }

  lemma DeployedStatusSays(cr: Resource, st: Status, r: Release, reason: Reason, now: int)
    requires Healthy(st) && Guarded(cr.finalizers) && Find(st.conditions, ReleaseFailed).None?
    ensures Says(cr.(status := DeployedStatus(st, r, reason, now)), r, reason)
  {
    SetEffect(st, Deployed, IsTrue, reason, Notes(r), now);
  }

  lemma InstallStageSays(env: Env, w: World, cr: Resource, st: Status, oc: Outcomes)
    requires w.cr == Some(cr) && !cr.deleting && Healthy(st)
    requires !InstallStage(env, w, cr, st, oc).result.Failed?
    ensures oc.install.InstalledAs?
    ensures var w' := InstallStage(env, w, cr, st, oc).world;
            w'.cr.Some? && Says(w'.cr.value, oc.install.release, InstallSuccessful) && w'.history == oc.install.history
  {
    RemoveEffect(st, ReleaseFailed);
    var w2 := PutFinalizers(w.(history := oc.install.history, live := oc.install.live),
                            cr.finalizers + {UninstallFinalizer}, oc.update);
    DeployedStatusSays(w2.cr.value, RemoveCond(st, ReleaseFailed), oc.install.release, InstallSuccessful, oc.now);
  }

  lemma UpgradeStageSays(env: Env, w: World, cr: Resource, st: Status, oc: Outcomes, calls: seq<Call>)
    requires w.cr.Some? && Guarded(w.cr.value.finalizers) && Healthy(st)
    requires !UpgradeStage(env, w, cr, st, oc, calls).result.Failed?
    ensures oc.upgrade.UpgradedTo?
    ensures var w' := UpgradeStage(env, w, cr, st, oc, calls).world;
            w'.cr.Some? && Says(w'.cr.value, oc.upgrade.release, UpgradeSuccessful) && w'.history == oc.upgrade.history
  {
    RemoveEffect(st, ReleaseFailed);
    DeployedStatusSays(w.cr.value, RemoveCond(st, ReleaseFailed), oc.upgrade.release, UpgradeSuccessful, oc.now);
  }

  lemma ReconcileStageSays(env: Env, w: World, cr: Resource, st: Status, deployed: Release, oc: Outcomes,
                           calls: seq<Call>)
    requires w.cr.Some? && Guarded(w.cr.value.finalizers) && w.cr.value.status == cr.status && Healthy(st)
    requires !ReconcileStage(env, w, cr, st, deployed, oc, calls).result.Failed?
    ensures var w' := ReconcileStage(env, w, cr, st, deployed, oc, calls).world;
            w'.cr.Some? && Says(w'.cr.value, deployed, ReasonFor(deployed.version)) && w'.history == w.history
  {
    var st1 := RemoveCond(st, ReleaseFailed);
    RemoveEffect(st, ReleaseFailed);
    RemoveEffect(st1, Irreconcilable);
    DeployedStatusSays(w.cr.value, RemoveCond(st1, Irreconcilable), deployed, ReasonFor(deployed.version), oc.now);
  }

  /** Every error-free pass over a live resource stores a finalizer and a status that says the
      release just handled, installed, upgraded to, or found deployed, is deployed. */
  lemma ErrorFreeStatus(env: Env, w: World, oc: Outcomes)
    requires w.cr.Some? && !w.cr.value.deleting && DistinctKinds(w.cr.value.status.conditions)
    requires !Reconcile(env, w, oc).result.Failed?
    ensures var w' := Reconcile(env, w, oc).world;
            var s := SyncOf(w.history, Candidate(env, w.cr.value.spec), oc.sync);
            && w'.cr.Some? && s.Synced?
            && (s.deployed.None? ==>
                  && oc.install.InstalledAs?
                  && Says(w'.cr.value, oc.install.release, InstallSuccessful) && w'.history == oc.install.history)
            && (s.deployed.Some? && s.upgradeRequired ==>
                  && oc.upgrade.UpgradedTo?
                  && Says(w'.cr.value, oc.upgrade.release, UpgradeSuccessful) && w'.history == oc.upgrade.history)
            && (s.deployed.Some? && !s.upgradeRequired ==>
                  && Says(w'.cr.value, s.deployed.value, ReasonFor(s.deployed.value.version))
                  && w'.history == s.history)
  {
    var cr := w.cr.value;
    var st := SetCond(cr.status, Initialized, IsTrue, NoReason, "", oc.now);
    SetEffect(cr.status, Initialized, IsTrue, NoReason, "", oc.now);
    var s := SyncOf(w.history, Candidate(env, cr.spec), oc.sync);
    if s.Synced? {
      var w1 := w.(history := s.history);
      var st1 := RemoveCond(st, Irreconcilable);
      RemoveEffect(st, Irreconcilable);
      if s.deployed.None? {
        InstallStageSays(env, w1, cr, st1, oc);
      } else {
        InstalledStageSays(env, w1, cr, st1, s.deployed.value, s.upgradeRequired, oc);
      }
    }
  }

  lemma InstalledStageSays(env: Env, w: World, cr: Resource, st: Status, deployed: Release, upgrade: bool, oc: Outcomes)
    requires w.cr == Some(cr) && !cr.deleting && Healthy(st)
    requires !InstalledStage(env, w, cr, st, deployed, upgrade, oc).result.Failed?
    ensures var w' := InstalledStage(env, w, cr, st, deployed, upgrade, oc).world;
            && w'.cr.Some?
            && (upgrade ==> oc.upgrade.UpgradedTo?
                            && Says(w'.cr.value, oc.upgrade.release, UpgradeSuccessful)
                            && w'.history == oc.upgrade.history)
            && (!upgrade ==> Says(w'.cr.value, deployed, ReasonFor(deployed.version)) && w'.history == w.history)
  {
    var addFinalizer := !Guarded(cr.finalizers);
    var w1 := if addFinalizer then PutFinalizers(w, cr.finalizers + {UninstallFinalizer}, oc.update) else w;
    var calls := if addFinalizer then [SyncCall, UpdateCall] else [SyncCall];
    if upgrade {
      UpgradeStageSays(env, w1, cr, st, oc, calls);
    } else {
      ReconcileStageSays(env, w1, cr, st, deployed, oc, calls);
    }
  }

  // ---- convergence ----

  /** Helm's contract for one pass: versions count from one, a first installation has version
      one, an upgrade a higher version than what was deployed, and both record as deployed
      exactly what the chart renders to. */
  ghost predicate HelmContract(env: Env, w: World, oc: Outcomes) {
    w.cr.Some? ==>
      var candidate := Candidate(env, w.cr.value.spec);
      var before := DeployedRelease(w.history);
      && (before.Some? ==> before.value.version >= 1)
      && (oc.install.InstalledAs? ==>
            oc.install.release.version == 1 && oc.install.release.manifest == candidate
            && DeployedRelease(oc.install.history) == Some(oc.install.release))
      && (oc.upgrade.UpgradedTo? ==>
            oc.upgrade.release.manifest == candidate
              && (before.Some? ==> before.value.version < oc.upgrade.release.version)
            && DeployedRelease(oc.upgrade.history) == Some(oc.upgrade.release))
  }

  /** The deployed release is what the chart renders to, and the status says so. */
  ghost predicate Settled(env: Env, w: World) {
    && w.cr.Some? && !w.cr.value.deleting && !w.cr.value.annotations.reconcilePeriod.BadPeriod?
    && var d := DeployedRelease(w.history);
       && d.Some? && d.value.manifest == Candidate(env, w.cr.value.spec) && d.value.version >= 1
       && Says(w.cr.value, d.value, ReasonFor(d.value.version))
  }

  predicate FaultFree(oc: Outcomes, h: History) {
    && !oc.getFails && !oc.managerFails
    && !oc.sync.historyFails && !oc.sync.deployedFails && !oc.sync.candidateFails
    && (forall r :: r in h ==> !oc.sync.delete(r).DeleteFails?)
    && !oc.reconcileFails && !oc.hookFails
    && oc.update.Stored? && oc.statusWrite.Stored?
  }

  lemma {:induction false} CleansUp(h: History, faults: SyncFaults)
    requires forall r :: r in h ==> !faults.delete(r).DeleteFails?
    ensures CleanHistory(h, faults).0
  {
    if h != [] {
      assert h == [h[0]] + h[1..];
      CleansUp(h[1..], faults);
    }
  }

  /** One error-free pass settles the resource. */
  lemma {:induction false} ErrorFreePassSettles(env: Env, w: World, oc: Outcomes)
    requires w.cr.Some? && !w.cr.value.deleting && DistinctKinds(w.cr.value.status.conditions)
    requires HelmContract(env, w, oc) && !Reconcile(env, w, oc).result.Failed?
    ensures Settled(env, Reconcile(env, w, oc).world)
  {
    ErrorFreeStatus(env, w, oc);
    LivePassKeeps(env, w, oc);
    CleanHistoryKeepsDeployed(w.history, oc.sync);
  }

  /** On a settled resource a fault-free pass only synchronises and reconciles. */
  lemma SettledPass(env: Env, w: World, oc: Outcomes)
    requires Settled(env, w) && FaultFree(oc, w.history)
    ensures var step := Reconcile(env, w, oc);
            && step.calls == [SyncCall, ReconcileCall]
            && step.result == Requeue(PeriodOf(env, w.cr.value.annotations))
            && step.world.cr == w.cr && step.world.live == oc.liveAfterReconcile
            && DeployedRelease(step.world.history) == DeployedRelease(w.history)
            && (forall r :: r in step.world.history <==> r in w.history && !Stale(r))
            && Settled(env, step.world)
  {
    var cr := w.cr.value;
    var d := DeployedRelease(w.history).value;
    CleansUp(w.history, oc.sync);
    CleanHistoryKeepsDeployed(w.history, oc.sync);
    SettledStatus(cr, d, oc.now);
  }

  /** Rebuilding the status of a settled resource gives the status back. */
  lemma SettledStatus(cr: Resource, d: Release, now: int)
    requires Says(cr, d, ReasonFor(d.version))
    ensures var st := SetCond(cr.status, Initialized, IsTrue, NoReason, "", now);
            && RemoveCond(st, Irreconcilable) == cr.status
            && RemoveCond(cr.status, ReleaseFailed) == cr.status
            && RemoveCond(cr.status, Irreconcilable) == cr.status
            && DeployedStatus(cr.status, d, ReasonFor(d.version), now) == cr.status
  {
    var cs := cr.status.conditions;
    FoundHasKind(cs, Initialized);
    FoundHasKind(cs, Deployed);
    SetAgain(cs, Condition(Initialized, IsTrue, NoReason, "", 0), now);
    SetAgain(cs, Condition(Deployed, IsTrue, ReasonFor(d.version), Notes(d), 0), now);
    RemoveAbsent(cs, Irreconcilable);
    RemoveAbsent(cs, ReleaseFailed);
  }

  /** Every event is a pass; the first meets Helm's contract and ends without error, and no
      fault occurs in the others. */
  ghost predicate QuietRun(env: Env, ws: seq<World>, es: seq<Event>) {
    && IsRun(env, ws, es) && es != []
    && ws[0].cr.Some? && !ws[0].cr.value.deleting && DistinctKinds(ws[0].cr.value.status.conditions)
    && (forall k :: 0 <= k < |es| ==> es[k].Pass?)
    && HelmContract(env, ws[0], es[0].oc) && !Reconcile(env, ws[0], es[0].oc).result.Failed?
    && (forall k :: 1 <= k < |es| ==> FaultFree(es[k].oc, ws[k].history))
  }

  lemma RunStep(env: Env, ws: seq<World>, es: seq<Event>, i: nat)
    requires QuietRun(env, ws, es) && 1 <= i < |ws|
    ensures es[i - 1].Pass? && ws[i] == Reconcile(env, ws[i - 1], es[i - 1].oc).world
    ensures i > 1 ==> FaultFree(es[i - 1].oc, ws[i - 1].history)
  {
    assert ws[i - 1 + 1] == Next(env, ws[i - 1], es[i - 1]);
  }

  /** Convergence: after one error-free pass, any number of fault-free passes over the unchanged
      resource neither install nor upgrade, write nothing to the resource, keep the deployed
      release, and from the first of them on no stale release record is left. */
  lemma {:induction false} Converges(env: Env, ws: seq<World>, es: seq<Event>, i: nat)
    requires QuietRun(env, ws, es) && 1 <= i < |ws|
    ensures Settled(env, ws[i]) && ws[i].cr == ws[1].cr
    ensures DeployedRelease(ws[i].history) == DeployedRelease(ws[1].history)
    ensures i > 1 ==> Reconcile(env, ws[i - 1], es[i - 1].oc).calls == [SyncCall, ReconcileCall]
    ensures i > 1 ==> forall r :: r in ws[i].history ==> !Stale(r)
    ensures i > 1 ==> ws[i].live == es[i - 1].oc.liveAfterReconcile
  {
    RunStep(env, ws, es, i);
    if i == 1 {
      ErrorFreePassSettles(env, ws[0], es[0].oc);
    } else {
      Converges(env, ws, es, i - 1);
      SettledPass(env, ws[i - 1], es[i - 1].oc);
    }
  }
}
