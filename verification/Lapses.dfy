/** Where passes of the Helm reconciler do not do what one would expect, and exactly when. */
module Lapses {
  import opened Wrappers
  import opened HelmStatus
  import opened ReleaseManager
  import opened Reconciler
  import opened ReconcilerRuns

  /** The condition is set, since the given time. */
  predicate Since(w: World, kind: ConditionType, time: int) {
    w.cr.Some? && var c := Find(w.cr.value.status.conditions, kind);
    c.Some? && c.value.status == IsTrue && c.value.time == time
  }

  // ---- transition times ----

  /** A resource that stays irreconcilable because synchronising keeps failing keeps the time
      since when it is. */
  lemma SyncFailureKeepsTime(env: Env, w: World, oc: Outcomes, time: int)
    requires Begins(w, oc) && !w.cr.value.deleting && DistinctKinds(w.cr.value.status.conditions)
    requires SyncOf(w.history, Candidate(env, w.cr.value.spec), oc.sync).SyncFailed? && Since(w, Irreconcilable, time)
    ensures Since(Reconcile(env, w, oc).world, Irreconcilable, time)
  {
    var st := SetCond(w.cr.value.status, Initialized, IsTrue, NoReason, "", oc.now);
    SetEffect(w.cr.value.status, Initialized, IsTrue, NoReason, "", oc.now);
    SetEffect(st, Irreconcilable, IsTrue, ReconcileError, oc.message, oc.now);
  }

  /** When reconciling keeps failing, or cleaning up after uninstalling, the condition is removed
      and set again in each pass, so its time is that of the last failure. */
  lemma RecordedFailureResetsTime(env: Env, w: World, oc: Outcomes)
    requires w.cr.Some? && DistinctKinds(w.cr.value.status.conditions)
    ensures RecordsReconcileFailure(env, w, oc) ==> Since(Reconcile(env, w, oc).world, Irreconcilable, oc.now)
    ensures RecordsCleanupFailure(env, w, oc) ==> Since(Reconcile(env, w, oc).world, ReleaseFailed, oc.now)
  {
    TransitionTimes(env, w, oc, Irreconcilable);
    TransitionTimes(env, w, oc, ReleaseFailed);
    if RecordsReconcileFailure(env, w, oc) {
      LivePassKeeps(env, w, oc);
    }
  }

  const PLAIN := Annotations(Absent, Absent, Absent, NoPeriod)
  const NO_FAULTS := CleanupFaults(false, false, r => false, false)
  const NO_SYNC_FAULTS := SyncFaults(false, r => Removed, false, false)

  /** A pass at a given time in which every call goes well and nothing changes. */
  function Smooth(now: int, r: Release, history: History, live: set<string>): Outcomes {
    Outcomes(false, false, now, "", UninstallNotFound, NO_FAULTS, live, true, NO_SYNC_FAULTS,
             InstalledAs(r, history, live), UpgradedTo(r, history, live), history, live, false, live, false,
             Stored, Stored, Stored)
  }

  const CONDITION := Condition(ReleaseFailed, IsTrue, UninstallError, "", 1)

  /** A resource that waits for its objects to go, and whose last cleanup has failed. */
  const WAITING_RESOURCE :=
    Resource(true, {UninstallFinalizer}, Annotations(Parsed(true), Absent, Absent, NoPeriod), map[],
             Status([CONDITION], Some(AppRelease("r", "m"))))

  /** The next cleanup failure moves the time from 1 to 2. */
  lemma CleanupTimeLost(env: Env, r: Release)
    ensures var w := World(Some(WAITING_RESOURCE), [], {});
            var oc := Smooth(2, r, [], {}).(cleanup := NO_FAULTS.(discoveryFails := true));
            Since(w, ReleaseFailed, 1) && Since(Reconcile(env, w, oc).world, ReleaseFailed, 2)
  {
    var w := World(Some(WAITING_RESOURCE), [], {});
    var oc := Smooth(2, r, [], {}).(cleanup := NO_FAULTS.(discoveryFails := true));
    assert RecordsCleanupFailure(env, w, oc);
    RecordedFailureResetsTime(env, w, oc);
  }

  /** A settled resource whose last reconciliation has failed. */
  function FailingWorld(env: Env): World {
    var manifest := Candidate(env, map[]);
    World(Some(Resource(false, {UninstallFinalizer}, PLAIN, map[],
                        Status([Condition(Irreconcilable, IsTrue, ReconcileError, "", 1)], None))),
          [Release("r", 1, manifest, Some(Info(StateDeployed, "")))], {})
  }

  /** The next reconciliation failure moves the time from 1 to 2. */
  lemma ReconcileTimeLost(env: Env)
    ensures var w := FailingWorld(env);
            var oc := Smooth(2, w.history[0], w.history, {}).(reconcileFails := true);
            Since(w, Irreconcilable, 1) && Since(Reconcile(env, w, oc).world, Irreconcilable, 2)
  {
    var w := FailingWorld(env);
    var oc := Smooth(2, w.history[0], w.history, {}).(reconcileFails := true);
    assert w.history[1..] == [] && [w.history[0]] + [] == w.history;
    assert CleanHistory(w.history, oc.sync) == (true, w.history);
    assert RecordsReconcileFailure(env, w, oc);
    RecordedFailureResetsTime(env, w, oc);
  }

  // ---- a release without a finalizer ----

  /** A release is deployed and no uninstall finalizer protects it. */
  ghost predicate Unprotected(w: World) {
    w.cr.Some? && !Guarded(w.cr.value.finalizers) && DeployedRelease(w.history).Some?
  }

  lemma {:induction false} InstallLeaves(env: Env, w: World, cr: Resource, st: Status, oc: Outcomes)
    requires w.cr == Some(cr) && !cr.deleting
    ensures Unprotected(InstallStage(env, w, cr, st, oc).world)
       <==> && !Guarded(cr.finalizers) && DeployedRelease(oc.install.history).Some?
            && (oc.install.InstallFails? || oc.update.Rejected?)
  {
  }

  lemma {:induction false} GuardStays(env: Env, w: World, cr: Resource, st: Status, deployed: Release, oc: Outcomes,
                                      calls: seq<Call>)
    requires w.cr.Some? && Guarded(w.cr.value.finalizers)
    ensures !Unprotected(UpgradeStage(env, w, cr, st, oc, calls).world)
    ensures !Unprotected(ReconcileStage(env, w, cr, st, deployed, oc, calls).world)
  {
  }

  lemma {:induction false} InstalledLeaves(env: Env, w: World, cr: Resource, st: Status, deployed: Release,
                                           upgrade: bool, oc: Outcomes)
    requires w.cr == Some(cr) && !cr.deleting && DeployedRelease(w.history).Some?
    ensures Unprotected(InstalledStage(env, w, cr, st, deployed, upgrade, oc).world)
       <==> !Guarded(cr.finalizers) && oc.update.Rejected?
  {
    var addFinalizer := !Guarded(cr.finalizers);
    var w1 := if addFinalizer then PutFinalizers(w, cr.finalizers + {UninstallFinalizer}, oc.update) else w;
    var calls := if addFinalizer then [SyncCall, UpdateCall] else [SyncCall];
    if !(addFinalizer && !oc.update.Stored?) {
      GuardStays(env, w1, cr, st, deployed, oc, calls);
    }
  }

  /** Exactly when a pass over a live resource leaves a deployed release unprotected: if it was
      and the pass did not get beyond synchronising; if installing left a deployed release and
      failed or was not followed by a stored finalizer; if a release was found deployed and the
      finalizer was rejected. */
  lemma {:induction false} UnprotectedIff(env: Env, w: World, oc: Outcomes)
    requires w.cr.Some? && !w.cr.value.deleting
    ensures var s := SyncOf(w.history, Candidate(env, w.cr.value.spec), oc.sync);
            Unprotected(Reconcile(env, w, oc).world)
            <==> && !Guarded(w.cr.value.finalizers)
                 && (if !Begins(w, oc) || s.SyncFailed? then DeployedRelease(w.history).Some?
                     else if s.deployed.None? then
                       DeployedRelease(oc.install.history).Some? && (oc.install.InstallFails? || oc.update.Rejected?)
                     else oc.update.Rejected?)
  {
    var cr := w.cr.value;
    var s := SyncOf(w.history, Candidate(env, cr.spec), oc.sync);
    CleanHistoryKeepsDeployed(w.history, oc.sync);
    if Begins(w, oc) && s.Synced? {
      var w1 := w.(history := s.history);
      var st := RemoveCond(SetCond(cr.status, Initialized, IsTrue, NoReason, "", oc.now), Irreconcilable);
      if s.deployed.None? {
        InstallLeaves(env, w1, cr, st, oc);
      } else {
        InstalledLeaves(env, w1, cr, st, s.deployed.value, s.upgradeRequired, oc);
      }
    }
  }

  /** The pass stores an uninstall finalizer: it finds a deployed release, or installs one, and
      the write of the finalizer is not rejected. */
  ghost predicate StoresFinalizer(env: Env, w: World, oc: Outcomes) {
    && Begins(w, oc) && !w.cr.value.deleting && !Guarded(w.cr.value.finalizers) && !oc.update.Rejected?
    && var s := SyncOf(w.history, Candidate(env, w.cr.value.spec), oc.sync);
       s.Synced? && (s.deployed.Some? || oc.install.InstalledAs?)
  }

  lemma {:induction false} InstallFinalizers(env: Env, w: World, cr: Resource, st: Status, oc: Outcomes)
    requires w.cr == Some(cr) && !cr.deleting
    ensures var w' := InstallStage(env, w, cr, st, oc).world;
            && w'.cr.Some?
            && w'.cr.value.finalizers
               == cr.finalizers + if oc.install.InstallFails? || oc.update.Rejected? then {} else {UninstallFinalizer}
  {
  }

  lemma {:induction false} InstalledFinalizers(env: Env, w: World, cr: Resource, st: Status, deployed: Release,
                                               upgrade: bool, oc: Outcomes)
    requires w.cr == Some(cr) && !cr.deleting
    ensures var w' := InstalledStage(env, w, cr, st, deployed, upgrade, oc).world;
            && w'.cr.Some?
            && w'.cr.value.finalizers
               == cr.finalizers + if Guarded(cr.finalizers) || oc.update.Rejected? then {} else {UninstallFinalizer}
  {
    var addFinalizer := !Guarded(cr.finalizers);
    var w1 := if addFinalizer then PutFinalizers(w, cr.finalizers + {UninstallFinalizer}, oc.update) else w;
    var calls := if addFinalizer then [SyncCall, UpdateCall] else [SyncCall];
    if !(addFinalizer && !oc.update.Stored?) {
      LaterFinalizers(env, w1, cr, st, deployed, oc, calls);
    }
  }

  lemma {:induction false} LaterFinalizers(env: Env, w: World, cr: Resource, st: Status, deployed: Release,
                                           oc: Outcomes, calls: seq<Call>)
    requires w.cr.Some?
    ensures var u := UpgradeStage(env, w, cr, st, oc, calls).world;
            u.cr.Some? && u.cr.value.finalizers == w.cr.value.finalizers
    ensures var r := ReconcileStage(env, w, cr, st, deployed, oc, calls).world;
            r.cr.Some? && r.cr.value.finalizers == w.cr.value.finalizers
  {
  }

  /** A pass over a live resource removes no finalizer, and if there is no uninstall finalizer it
      changes them by storing one and in no other way. */
  lemma {:induction false} LiveFinalizers(env: Env, w: World, oc: Outcomes)
    requires w.cr.Some? && !w.cr.value.deleting
    ensures var w' := Reconcile(env, w, oc).world;
            && w'.cr.Some?
            && w.cr.value.finalizers <= w'.cr.value.finalizers
            && (!Guarded(w.cr.value.finalizers) ==>
                  w'.cr.value.finalizers
                  == w.cr.value.finalizers + if StoresFinalizer(env, w, oc) then {UninstallFinalizer} else {})
  {
    var cr := w.cr.value;
    var s := SyncOf(w.history, Candidate(env, cr.spec), oc.sync);
    if Begins(w, oc) && s.Synced? {
      var w1 := w.(history := s.history);
      var st := RemoveCond(SetCond(cr.status, Initialized, IsTrue, NoReason, "", oc.now), Irreconcilable);
      if s.deployed.None? {
        InstallFinalizers(env, w1, cr, st, oc);
      } else {
        InstalledFinalizers(env, w1, cr, st, s.deployed.value, s.upgradeRequired, oc);
      }
    }
  }

  /** From its creation in step `start` to the state `end` the resource exists and is not under
      deletion. */
  ghost predicate LivesFrom(ws: seq<World>, es: seq<Event>, start: nat, end: nat) {
    && start < end < |ws| && end <= |es| && es[start].Create? && ws[start].cr.None?
    && forall k :: start < k <= end ==> ws[k].cr.Some? && !ws[k].cr.value.deleting
  }

  ghost predicate NoneStored(env: Env, ws: seq<World>, es: seq<Event>, start: nat, end: nat)
    requires |ws| == |es| + 1 && end <= |es|
  {
    forall j :: start < j < end && es[j].Pass? ==> !StoresFinalizer(env, ws[j], es[j].oc)
  }

  /** A live resource has no finalizers exactly if it was created without and no pass since has
      stored one. */
  lemma {:induction false} NoFinalizersIff(env: Env, ws: seq<World>, es: seq<Event>, start: nat, end: nat)
    requires IsRun(env, ws, es) && LivesFrom(ws, es, start, end)
    ensures ws[end].cr.value.finalizers == {} <==> es[start].finalizers == {} && NoneStored(env, ws, es, start, end)
    decreases end
  {
    var last := end - 1;
    assert ws[last + 1] == Next(env, ws[last], es[last]);
    if last == start {
      CreatedFinalizers(es[start].finalizers);
    } else {
      assert ws[last].cr.Some? && !ws[last].cr.value.deleting && ws[end].cr.Some? && !ws[end].cr.value.deleting;
      NoFinalizersIff(env, ws, es, start, last);
      NextFinalizers(env, ws[last], es[last]);
      NoneStoredStep(env, ws, es, start, last);
    }
  }

  lemma {:induction false} NoneStoredStep(env: Env, ws: seq<World>, es: seq<Event>, start: nat, last: nat)
    requires |ws| == |es| + 1 && start < last < |es|
    ensures NoneStored(env, ws, es, start, last + 1)
       <==> NoneStored(env, ws, es, start, last) && !(es[last].Pass? && StoresFinalizer(env, ws[last], es[last].oc))
  {
  }

  lemma CreatedFinalizers(names: set<string>)
    ensures (set f | f in names :: OtherFinalizer(f)) == {} <==> names == {}
  {
    var fs := set f | f in names :: OtherFinalizer(f);
    if n :| n in names { assert OtherFinalizer(n) in fs; }
  }

  lemma {:induction false} NextFinalizers(env: Env, w: World, e: Event)
    requires w.cr.Some? && !w.cr.value.deleting
    requires Next(env, w, e).cr.Some? && !Next(env, w, e).cr.value.deleting
    ensures Next(env, w, e).cr.value.finalizers == {}
       <==> w.cr.value.finalizers == {} && !(e.Pass? && StoresFinalizer(env, w, e.oc))
  {
    if e.Pass? { LiveFinalizers(env, w, e.oc); }
  }

  /** Over every run: deleting a resource leaves a deployed release behind at once exactly if one
      is in the storage, the resource was created without finalizers, and no pass since has
      stored one. */
  lemma {:induction false} DeletionOrphansIff(env: Env, ws: seq<World>, es: seq<Event>, start: nat, end: nat)
    requires IsRun(env, ws, es) && LivesFrom(ws, es, start, end) && end < |es| && es[end].Delete?
    ensures ws[end + 1].cr.None? && DeployedRelease(ws[end + 1].history).Some?
       <==> && DeployedRelease(ws[end].history).Some?
            && es[start].finalizers == {} && NoneStored(env, ws, es, start, end)
  {
    NoFinalizersIff(env, ws, es, start, end);
    assert ws[end + 1] == Next(env, ws[end], es[end]);
  }

  /** What Helm promises: nothing is deployed after uninstalling, or when there is nothing to
      uninstall. */
  ghost predicate UninstallContract(w: World, oc: Outcomes) {
    match oc.uninstall
    case Uninstalled(history, _) => DeployedRelease(history).None?
    case UninstallNotFound => DeployedRelease(w.history).None?
    case UninstallFails(_, _) => true
  }

  /** A pass that removes the resource leaves no deployed release behind. */
  lemma {:induction false} PassLeavesNoRelease(env: Env, w: World, oc: Outcomes)
    requires w.cr.Some? && UninstallContract(w, oc) && Reconcile(env, w, oc).world.cr.None?
    ensures DeployedRelease(Reconcile(env, w, oc).world.history).None?
  {
    if !w.cr.value.deleting { LiveFinalizers(env, w, oc); }
  }

  /** A release that is installed when the finalizer cannot be written, on a new resource. */
  lemma InstalledThenOrphaned(env: Env)
    ensures var r := Release("r", 1, "m", Some(Info(StateDeployed, "")));
            var w := World(Some(Resource(false, {}, PLAIN, map[], EMPTY_STATUS)), [], {});
            var w1 := Reconcile(env, w, Smooth(1, r, [r], {}).(update := Rejected)).world;
            Next(env, w1, Delete) == World(None, [r], {}) && DeployedRelease([r]) == Some(r)
  {
    assert [Release("r", 1, "m", Some(Info(StateDeployed, "")))][1..] == [];
  }
}
