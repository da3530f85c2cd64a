/** The objects of a settled release along passes without faults. */
module SettledObjects {
  import opened ReleaseManager
  import opened Reconciler
  import opened ReconcilerRuns
  import opened Convergence
  import opened JsonPatch
  import opened ReleaseObjects

  /** Cluster objects before each pass, and what the calls for them do in each. */
  datatype ObjectRun = ObjectRun(
    objects: seq<map<string, Json>>,
    orders: seq<KeyOrder>,
    faults: seq<seq<ObjectFaults>>)

  /** The reconciliation of the objects in pass `k`, as the pass over the resource sees it. */
  ghost predicate Reconciles(run: ObjectRun, expected: seq<Expected>, k: nat, oc: Outcomes)
    requires k + 1 < |run.objects| && k < |run.orders| && k < |run.faults|
  {
    && OrdersKeys(run.orders[k]) && |run.faults[k]| == |expected|
    && var (after, ok) := AfterAll(run.orders[k], run.objects[k], expected, run.faults[k]);
       run.objects[k + 1] == after && oc.reconcileFails == !ok && oc.liveAfterReconcile == after.Keys
  }

  /** From the second pass on the passes reconcile the objects of the deployed manifest. */
  ghost predicate ObjectsFollow(run: ObjectRun, parts: string -> seq<Expected>, ws: seq<World>, es: seq<Event>)
    requires |ws| == |es| + 1
  {
    && |run.objects| == |ws| && |run.orders| == |es| && |run.faults| == |es|
    && forall k :: 1 <= k < |es| ==>
         var d := DeployedRelease(ws[k].history);
         d.Some? && es[k].Pass? && Reconciles(run, parts(d.value.manifest), k, es[k].oc)
  }

  /** After one fault-free pass over a settled resource every object that was absent or could be
      patched has what is expected of it, and no later pass writes any object. */
  lemma {:induction false} ObjectsSettle(env: Env, ws: seq<World>, es: seq<Event>, run: ObjectRun,
                                         parts: string -> seq<Expected>, expected: seq<Expected>, i: nat)
    requires QuietRun(env, ws, es) && ObjectsFollow(run, parts, ws, es) && 2 <= i < |ws|
    requires DeployedRelease(ws[1].history).Some? && expected == parts(DeployedRelease(ws[1].history).value.manifest)
    requires DistinctNames(expected) && forall e :: e in expected ==> Reconcilable(run.objects[1], e)
    ensures forall e :: e in expected ==> Done(run.objects[1], run.objects[i], e) && InPlace(run.objects[i], e)
    ensures run.objects[i] == run.objects[2]
    ensures ws[i].live == run.objects[i].Keys
    decreases i
  {
    var k := i - 1;
    Converges(env, ws, es, k);
    Converges(env, ws, es, i);
    assert Reconciles(run, expected, k, es[k].oc);
    if i == 2 {
      assert FaultFree(es[1].oc, ws[1].history);
      EnsureAll(run.orders[1], run.objects[1], expected, run.faults[1]);
    } else {
      ObjectsSettle(env, ws, es, run, parts, expected, k);
      EnsureAllAgain(run.orders[k], run.objects[k], expected, run.faults[k]);
    }
  }
}
