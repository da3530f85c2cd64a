/** The Helm release manager of one custom resource: storage synchronisation and cleanup. */
module ReleaseManager {
  import opened Wrappers
  import opened Text
  import opened Seqs

  // ---- release storage ----

  datatype ReleaseState = StateDeployed | StateOther
  datatype Info = Info(state: ReleaseState, notes: string)
  datatype Release = Release(name: string, version: nat, manifest: string, info: Option<Info>)

  type History = seq<Release>

  /** Synchronisation deletes these records. */
  predicate Stale(r: Release) { r.info.Some? && r.info.value.state != StateDeployed }

  predicate IsDeployed(r: Release) { r.info.Some? && r.info.value.state == StateDeployed }

  /** The deployed record with the highest version, as Helm's storage finds it. */
  function DeployedRelease(h: History): (r: Option<Release>)
    ensures r.Some? ==> r.value in h && IsDeployed(r.value)
    ensures r.Some? ==> forall x :: x in h && IsDeployed(x) ==> x.version <= r.value.version
    ensures r.None? ==> forall x :: x in h ==> !IsDeployed(x)
  {
    if h == [] then None
    else
      assert h == [h[0]] + h[1..];
      var rest := DeployedRelease(h[1..]);
      if IsDeployed(h[0]) && (rest.None? || rest.value.version <= h[0].version) then Some(h[0]) else rest
  }

  datatype DeleteOutcome = Removed | AlreadyGone | DeleteFails

  /** Outcomes of the storage and rendering calls made while synchronising. */
  datatype SyncFaults = SyncFaults(
    historyFails: bool,
    delete: Release -> DeleteOutcome,
    deployedFails: bool,
    candidateFails: bool)

  /** The history after trying to delete stale records in order, and whether all went well. */
  function CleanHistory(h: History, faults: SyncFaults): (bool, History) {
    if h == [] then (true, [])
    else if !Stale(h[0]) then
      var (ok, rest) := CleanHistory(h[1..], faults);
      (ok, [h[0]] + rest)
    else if faults.delete(h[0]).DeleteFails? then (false, h)
    else CleanHistory(h[1..], faults)
  }

  datatype SyncResult =
    | SyncFailed(history: History)
    | Synced(history: History, deployed: Option<Release>, upgradeRequired: bool)

  /** `candidate` is the manifest that rendering the chart with the current values gives. */
  function SyncOf(h: History, candidate: string, faults: SyncFaults): SyncResult {
    if faults.historyFails then SyncFailed(h)
    else
      var (ok, cleaned) := CleanHistory(h, faults);
      if !ok || faults.deployedFails then SyncFailed(cleaned)
      else
        var deployed := DeployedRelease(cleaned);
        if deployed.None? then Synced(cleaned, None, false)
        else if faults.candidateFails then SyncFailed(cleaned)
        else Synced(cleaned, deployed, deployed.value.manifest != candidate)
  }

  /** Stored releases; deleting a record changes them in place. */
  class Storage {
    var history: History

    constructor (h: History)
      ensures history == h
    {
      history := h;
    }

    method Delete(r: Release, outcome: DeleteOutcome, ghost kept: History, ghost rest: History)
      requires history == kept + [r] + rest && forall j :: 0 <= j < |kept| ==> kept[j] != r
      modifies this
      ensures history == if outcome.DeleteFails? then old(history) else kept + rest
    {
      if !outcome.DeleteFails? {
        var i := 0;
        assert history[|kept|] == r;
        assert forall j :: 0 <= j < |kept| ==> history[j] == kept[j];
        while i < |history| && history[i] != r
          invariant 0 <= i <= |kept| && history == kept + [r] + rest
        {
          i := i + 1;
        }
        assert i == |kept|;
        history := history[..i] + history[i + 1..];
        assert history == kept + rest;
      }
    }
  }

  class Manager {
    const storage: Storage
    var isInstalled: bool
    var isUpgradeRequired: bool
    var deployedRelease: Option<Release>

    constructor (s: Storage)
      ensures storage == s && !isInstalled && !isUpgradeRequired && deployedRelease.None?
    {
      storage := s;
      isInstalled, isUpgradeRequired, deployedRelease := false, false, None;
    }

    /** Deletes the stale records one by one. */
    method Cleanup(faults: SyncFaults) returns (ok: bool)
      modifies storage
      ensures (ok, storage.history) == CleanHistory(old(storage.history), faults)
    {
      var releases := storage.history;
      ghost var kept, rest: History := [], releases;
      assert [] + CleanHistory(releases, faults).1 == CleanHistory(releases, faults).1;
      for i := 0 to |releases|
        invariant rest == releases[i..] && storage.history == kept + rest
        invariant forall j :: 0 <= j < |kept| ==> !Stale(kept[j])
        invariant CleanHistory(releases, faults) == (CleanHistory(rest, faults).0, kept + CleanHistory(rest, faults).1)
      {
        var rel := releases[i];
        HeadOf(kept, rest);
        Assoc(kept, [rel], CleanHistory(rest[1..], faults).1);
        if Stale(rel) {
          storage.Delete(rel, faults.delete(rel), kept, rest[1..]);
          if faults.delete(rel).DeleteFails? {
            return false;
          }
        } else {
          kept := kept + [rel];
        }
        rest := rest[1..];
      }
      ok := true;
      assert kept + [] == kept;
    }

    /** Brings the storage in line and decides what the custom resource needs. */
    method Sync(candidate: string, faults: SyncFaults) returns (ok: bool)
      requires !isInstalled && !isUpgradeRequired && deployedRelease.None?
      modifies this, storage
      ensures storage.history == SyncOf(old(storage.history), candidate, faults).history
      ensures ok <==> SyncOf(old(storage.history), candidate, faults).Synced?
      ensures ok ==> var r := SyncOf(old(storage.history), candidate, faults);
                     deployedRelease == r.deployed && isInstalled == r.deployed.Some?
                       && isUpgradeRequired == r.upgradeRequired
    {
      if faults.historyFails {
        return false;
      }
      ok := Cleanup(faults);
      if !ok || faults.deployedFails {
        return false;
      }
      var found := DeployedRelease(storage.history);
      if found.None? {
        return true;
      }
      deployedRelease := found;
      isInstalled := true;
      if faults.candidateFails {
        return false;
      }
      if found.value.manifest != candidate {
        isUpgradeRequired := true;
      }
    }
  }

  /** After a successful synchronisation no stale record is left, everything else is, in
      order, and the deployed release is the one deployed before. */
  lemma {:induction false} CleanHistoryKeepsDeployed(h: History, faults: SyncFaults)
    ensures var (ok, c) := CleanHistory(h, faults);
            && (ok ==> forall r :: r in c <==> r in h && !Stale(r))
            && (forall r :: r in c ==> r in h)
            && DeployedRelease(c) == DeployedRelease(h)
  {
    if h != [] {
      assert h == [h[0]] + h[1..];
      CleanHistoryKeepsDeployed(h[1..], faults);
      if !Stale(h[0]) {
        var c := CleanHistory(h[1..], faults).1;
        assert ([h[0]] + c)[1..] == c;
      }
    }
  }

  lemma {:induction false} CleanHistoryStable(h: History, faults: SyncFaults)
    requires forall r :: r in h ==> !Stale(r)
    ensures CleanHistory(h, faults) == (true, h)
  {
    if h != [] {
      assert h == [h[0]] + h[1..];
      CleanHistoryStable(h[1..], faults);
    }
  }

  // ---- resource policy ----

  const KEEP := "keep"

  /** A manifest file: the value of its resource policy annotation, if it has one, and the
      resources it describes. */
  datatype File = File(policy: Option<string>, resources: seq<string>)

  predicate Keeps(f: File) { f.policy.Some? && ToLower(TrimSpace(f.policy.value)) == KEEP }

  function Kept(files: seq<File>): seq<File> {
    if files == [] then []
    else (if Keeps(files[0]) then [files[0]] else []) + Kept(files[1..])
  }

  function Remaining(files: seq<File>): seq<File> {
    if files == [] then []
    else (if files[0].policy.None? then [files[0]] else []) + Remaining(files[1..])
  }

  method FilterManifestsToKeep(manifests: seq<File>) returns (keep: seq<File>, remaining: seq<File>)
    ensures keep == Kept(manifests)
    ensures remaining == Remaining(manifests)
  {
    keep, remaining := [], [];
    ghost var rest := manifests;
    for i := 0 to |manifests|
      invariant rest == manifests[i..]
      invariant keep + Kept(rest) == Kept(manifests)
      invariant remaining + Remaining(rest) == Remaining(manifests)
    {
      var m := manifests[i];
      FilterHead(keep, remaining, rest);
      if m.policy.None? {
        remaining := remaining + [m];
      } else if ToLower(TrimSpace(m.policy.value)) == KEEP {
        keep := keep + [m];
      }
      rest := rest[1..];
    }
  }

  lemma {:induction false} FilterHead(keep: seq<File>, remaining: seq<File>, rest: seq<File>)
    requires rest != []
    ensures keep + Kept(rest) == (if Keeps(rest[0]) then keep + [rest[0]] else keep) + Kept(rest[1..])
    ensures remaining + Remaining(rest)
            == (if rest[0].policy.None? then remaining + [rest[0]] else remaining) + Remaining(rest[1..])
  {
    assert keep + ([rest[0]] + Kept(rest[1..])) == (keep + [rest[0]]) + Kept(rest[1..]);
    assert [] + Kept(rest[1..]) == Kept(rest[1..]) && [] + Remaining(rest[1..]) == Remaining(rest[1..]);
    assert remaining + ([rest[0]] + Remaining(rest[1..])) == (remaining + [rest[0]]) + Remaining(rest[1..]);
  }

  /** A file is lost from both lists exactly when it carries a policy other than "keep". */
  lemma {:induction false} FilterLosesOtherPolicies(files: seq<File>, f: File)
    ensures f in Kept(files) <==> f in files && Keeps(f)
    ensures f in Remaining(files) <==> f in files && f.policy.None?
    ensures f in files ==> ((f !in Kept(files) && f !in Remaining(files)) <==> (f.policy.Some? && !Keeps(f)))
  {
    if files != [] {
      assert files == [files[0]] + files[1..];
      FilterLosesOtherPolicies(files[1..], f);
    }
  }

  // ---- cleanup ----

  function ResourcesOf(files: seq<File>): seq<string> {
    if files == [] then [] else files[0].resources + ResourcesOf(files[1..])
  }

  /** Outcomes of the calls made during cleanup. */
  datatype CleanupFaults = CleanupFaults(
    discoveryFails: bool,
    buildFails: bool,
    getFails: string -> bool,
    deleteFails: bool)

  datatype CleanupResult = CleanupFailed | AllDeleted | DeletedAgain

  /** What checking the resources one by one ends with. */
  function Check(resources: seq<string>, live: set<string>, faults: CleanupFaults): CleanupResult {
    if resources == [] then AllDeleted
    else if faults.getFails(resources[0]) then CleanupFailed
    else if resources[0] !in live then Check(resources[1..], live, faults)
    else if faults.deleteFails then CleanupFailed
    else DeletedAgain
  }

  /** `parsed` is the manifest split into files, absent when it cannot be split and sorted. */
  function CleanupOf(parsed: Option<seq<File>>, live: set<string>, faults: CleanupFaults): CleanupResult {
    if faults.discoveryFails || parsed.None? || faults.buildFails then CleanupFailed
    else Check(ResourcesOf(Remaining(parsed.value)), live, faults)
  }

  method CleanupRelease(parsed: Option<seq<File>>, live: set<string>, faults: CleanupFaults) returns (r: CleanupResult)
    ensures r == CleanupOf(parsed, live, faults)
  {
    if faults.discoveryFails || parsed.None? {
      return CleanupFailed;
    }
    var _, filesToDelete := FilterManifestsToKeep(parsed.value);
    if faults.buildFails {
      return CleanupFailed;
    }
    var resources := ResourcesOf(filesToDelete);
    ghost var rest := resources;
    for i := 0 to |resources|
      invariant rest == resources[i..] && Check(resources, live, faults) == Check(rest, live, faults)
    {
      if faults.getFails(resources[i]) {
        return CleanupFailed;
      }
      if resources[i] in live {
        return if faults.deleteFails then CleanupFailed else DeletedAgain;
      }
      rest := rest[1..];
    }
    r := AllDeleted;
  }

  /** Cleanup reports completion exactly when it could look at every resource of every file
      without a policy and saw each of them gone. */
  lemma {:induction false} CheckSeesAllGone(resources: seq<string>, live: set<string>, faults: CleanupFaults)
    ensures Check(resources, live, faults).AllDeleted?
       <==> forall r :: r in resources ==> r !in live && !faults.getFails(r)
  {
    if resources != [] {
      assert resources == [resources[0]] + resources[1..];
      CheckSeesAllGone(resources[1..], live, faults);
    }
  }

  lemma {:induction false} CheckWithoutFaults(resources: seq<string>, live: set<string>, faults: CleanupFaults)
    requires !faults.deleteFails && forall r :: !faults.getFails(r)
    ensures !Check(resources, live, faults).CleanupFailed?
  {
    if resources != [] {
      CheckWithoutFaults(resources[1..], live, faults);
    }
  }

  lemma {:induction false} ResourceMember(files: seq<File>, r: string)
    ensures r in ResourcesOf(files) <==> exists f :: f in files && r in f.resources
  {
    if files != [] {
      assert files == [files[0]] + files[1..];
      ResourceMember(files[1..], r);
    }
  }

  lemma CleanupSeesAllGone(files: seq<File>, live: set<string>, faults: CleanupFaults)
    ensures CleanupOf(Some(files), live, faults).AllDeleted?
       <==> !faults.discoveryFails && !faults.buildFails
            && forall f, r :: f in files && f.policy.None? && r in f.resources ==> r !in live && !faults.getFails(r)
  {
    var rs := ResourcesOf(Remaining(files));
    CheckSeesAllGone(rs, live, faults);
    forall r ensures r in rs <==> exists f :: f in files && f.policy.None? && r in f.resources {
      ResourceMember(Remaining(files), r);
      forall f ensures f in Remaining(files) <==> f in files && f.policy.None? { FilterLosesOtherPolicies(files, f); }
    }
  }

  // ---- policies and cleanup in terms of their inputs ----

  /** The policies that keep a file, in any case and with white space around them. */
  lemma KeepIsKept(resources: seq<string>)
    ensures Keeps(File(Some("keep"), resources)) && Keeps(File(Some(" Keep "), resources))
    ensures !Keeps(File(None, resources)) && !Keeps(File(Some("delete"), resources))
  {
    assert ToLower("Keep") == "keep" && ToLower("keep") == "keep";
    assert " Keep "[1..] == "Keep " && "Keep "[..4] == "Keep";
    assert TrimSpace("keep") == "keep" && TrimSpace(" Keep ") == "Keep";
    assert TrimSpace("delete") == "delete" && ToLower("delete") == "delete";
    assert "delete"[0] != "keep"[0];
  }

  ghost predicate Reached(resources: seq<string>, live: set<string>, faults: CleanupFaults, k: nat) {
    k < |resources| && forall i :: 0 <= i < k ==> resources[i] !in live && !faults.getFails(resources[i])
  }

  lemma {:induction false} CheckOutcome(resources: seq<string>, live: set<string>, faults: CleanupFaults)
    ensures Check(resources, live, faults) == DeletedAgain <==> exists k: nat ::
              Reached(resources, live, faults, k) && resources[k] in live && !faults.getFails(resources[k])
                && !faults.deleteFails
    ensures Check(resources, live, faults) == CleanupFailed <==> exists k: nat ::
              Reached(resources, live, faults, k)
              && (faults.getFails(resources[k]) || (resources[k] in live && faults.deleteFails))
  {
    if resources != [] {
      var rest := resources[1..];
      CheckOutcome(rest, live, faults);
      forall k: nat
        ensures Reached(resources, live, faults, k + 1)
                == (resources[0] !in live && !faults.getFails(resources[0]) && Reached(rest, live, faults, k))
      {
        if Reached(resources, live, faults, k + 1) {
          assert forall i :: 0 <= i < k ==> rest[i] == resources[i + 1];
        }
        if k < |rest| && Reached(rest, live, faults, k) {
          assert forall i :: 1 <= i < k + 1 ==> resources[i] == rest[i - 1];
        }
      }
      assert Reached(resources, live, faults, 0);
      assert forall k: nat :: k > 0 && Reached(resources, live, faults, k) ==>
               Reached(resources, live, faults, (k - 1) + 1);
    }
  }

  function WithoutStale(h: History): History {
    if h == [] then [] else (if Stale(h[0]) then [] else [h[0]]) + WithoutStale(h[1..])
  }

  /** Cleaning goes on to the first stale record that cannot be deleted: those before it are gone,
      and everything from there on stays. */
  lemma {:induction false} CleansUpTo(h: History, faults: SyncFaults) returns (k: nat)
    ensures k <= |h| && CleanHistory(h, faults) == (k == |h|, WithoutStale(h[..k]) + h[k..])
    ensures forall i :: 0 <= i < k && Stale(h[i]) ==> !faults.delete(h[i]).DeleteFails?
    ensures k < |h| ==> Stale(h[k]) && faults.delete(h[k]).DeleteFails?
  {
    k := 0;
    if h != [] && !(Stale(h[0]) && faults.delete(h[0]).DeleteFails?) {
      var later := CleansUpTo(h[1..], faults);
      k := later + 1;
      assert h[..k][1..] == h[1..][..later] && h[k..] == h[1..][later..] && h[..k][0] == h[0];
      assert forall i :: 1 <= i < k ==> h[i] == h[1..][i - 1];
      assert [] + WithoutStale(h[1..][..later]) == WithoutStale(h[1..][..later]);
      assert [h[0]] + (WithoutStale(h[1..][..later]) + h[k..]) == ([h[0]] + WithoutStale(h[1..][..later])) + h[k..];
    } else {
      assert h[..0] == [] && h[0..] == h && [] + h == h;
    }
  }
}
