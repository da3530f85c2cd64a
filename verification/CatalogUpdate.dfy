/** Updating a catalog source: a new registry pod is created and linked before the previous one
    is deleted. */
module CatalogUpdate {
  import opened Wrappers
  import opened Seqs
  import opened Channel

  /** The cluster as far as the catalog is concerned: the registry pods that exist, the pod the
      catalog source connects to, and the two annotations the update reads and writes. */
  datatype State = State(pods: set<string>, linked: string, podAnnotation: string, injected: seq<string>)

  /** How a bundle image names its registry pod, and the bundle it contains. */
  datatype Naming = Naming(podName: string -> string, bundleName: string -> string)

  /** What can go wrong in one update, in the order in which it can. The write that links the
      new pod may be stored although it is reported as failed. */
  datatype Faults = Faults(
    rejected: bool,
    createFails: bool,
    neverRuns: bool,
    linkFails: bool,
    linkStored: bool,
    readPreviousFails: bool,
    deletePreviousFails: bool,
    removalNotSeen: bool)

  function WithPod(s: State, pod: string): State { s.(pods := s.pods + {pod}) }

  function LinkedTo(s: State, pod: string, bundle: string): State {
    s.(linked := pod, podAnnotation := pod, injected := s.injected + [bundle])
  }

  /** Whether the update succeeds, and the states it goes through after each change. */
  function UpdateStates(n: Naming, s: State, bundle: string, f: Faults): (bool, seq<State>) {
    var pod := n.podName(bundle);
    if f.rejected || pod == "" || pod in s.pods || f.createFails then (false, [])
    else
      var created := WithPod(s, pod);
      var linked := LinkedTo(created, pod, bundle);
      if f.neverRuns || (f.linkFails && !f.linkStored) then (false, [created])
      else if f.linkFails then (false, [created, linked])
      else if s.podAnnotation == "" then (true, [created, linked])
      else if s.podAnnotation !in linked.pods || f.readPreviousFails || f.deletePreviousFails
        then (false, [created, linked])
      else (!f.removalNotSeen, [created, linked, linked.(pods := linked.pods - {s.podAnnotation})])
  }

  function AfterUpdate(n: Naming, s: State, bundle: string, f: Faults): State {
    var states := UpdateStates(n, s, bundle, f).1;
    if states == [] then s else states[|states| - 1]
  }

  /** The channel written for an update when the index does not have it: one entry for each
      bundle injected so far and then the new one. If none is, a channel of the index is
      upgraded instead and none is written anew. */
  function RegeneratedChannel(n: Naming, s: State, bundle: string): Option<seq<Entry>> {
    if s.injected == [] then None else Some(Chain(BundleNames(n, s.injected + [bundle])))
  }

  function BundleNames(n: Naming, images: seq<string>): (r: seq<string>)
    ensures |r| == |images|
  {
    seq(|images|, i requires 0 <= i < |images| => n.bundleName(images[i]))
  }

  class Catalog {
    var pods: set<string>
    var linked: string
    var podAnnotation: string
    var injected: seq<string>
    ghost var trace: seq<State>

    constructor (s: State)
      ensures View() == s && trace == []
    {
      pods, linked, podAnnotation, injected := s.pods, s.linked, s.podAnnotation, s.injected;
      trace := [];
    }

    function View(): State
      reads this
    {
      State(pods, linked, podAnnotation, injected)
    }

    method CreatePod(pod: string, f: Faults) returns (ok: bool)
      modifies this
      ensures var refused := pod == "" || pod in old(pods) || f.createFails;
              && View() == (if refused then old(View()) else WithPod(old(View()), pod))
              && trace == old(trace) + (if refused then [] else [View()])
              && ok == (!refused && !f.neverRuns)
    {
      if pod == "" || pod in pods || f.createFails {
        return false;
      }
      pods := pods + {pod};
      trace := trace + [View()];
      ok := !f.neverRuns;
    }

    method Link(pod: string, items: seq<string>, f: Faults) returns (ok: bool)
      modifies this
      ensures var refused := f.linkFails && !f.linkStored;
              && View() == (if refused then old(View())
                            else old(View()).(linked := pod, podAnnotation := pod, injected := items))
              && trace == old(trace) + (if refused then [] else [View()])
              && ok == !f.linkFails
    {
      if f.linkFails && !f.linkStored {
        return false;
      }
      linked, podAnnotation, injected := pod, pod, items;
      trace := trace + [View()];
      ok := !f.linkFails;
    }

    method DeleteRegistryPod(pod: string, f: Faults) returns (ok: bool)
      modifies this
      ensures var refused := pod !in old(pods) || f.readPreviousFails || f.deletePreviousFails;
              && View() == (if refused then old(View()) else old(View()).(pods := old(pods) - {pod}))
              && trace == old(trace) + (if refused then [] else [View()])
              && ok == (!refused && !f.removalNotSeen)
    {
      if pod !in pods || f.readPreviousFails || f.deletePreviousFails {
        return false;
      }
      pods := pods - {pod};
      trace := trace + [View()];
      ok := !f.removalNotSeen;
    }

    method UpdateCatalog(n: Naming, bundle: string, f: Faults) returns (ok: bool, channel: Option<seq<Entry>>)
      modifies this
      ensures var r := UpdateStates(n, old(View()), bundle, f); ok == r.0 && trace == old(trace) + r.1
      ensures View() == AfterUpdate(n, old(View()), bundle, f)
      ensures ok ==> channel == RegeneratedChannel(n, old(View()), bundle)
    {
      ghost var was, s := trace, View();
      assert was + [] == was;
      var prevRegistryPodName := podAnnotation;
      var refs := injected + [bundle];
      channel := None;
      if f.rejected {
        return false, None;
      }
      if |injected| != 0 {
        var entries := NewChannelEntries(BundleNames(n, refs));
        channel := Some(entries);
      }
      var pod := n.podName(bundle);
      var created := CreatePod(pod, f);
      if !created {
        return false, channel;
      }
      ok := Link(pod, refs, f);
      if !ok {
        assert trace == was + if f.linkStored then [WithPod(s, pod), View()] else [WithPod(s, pod)];
        return;
      }
      assert trace == was + [WithPod(s, pod), View()];
      ghost var linkedTrace := trace;
      if prevRegistryPodName != "" {
        ok := DeleteRegistryPod(prevRegistryPodName, f);
        assert linkedTrace + [] == linkedTrace;
        assert linkedTrace + [View()] == was + [WithPod(s, pod), LinkedTo(WithPod(s, pod), pod, bundle), View()];
      }
    }
  }

  // ---- the catalog is always served ----

  /** The catalog source connects to the pod its annotation names, and that pod exists. */
  ghost predicate Served(s: State) {
    s.podAnnotation == s.linked && (s.linked != "" ==> s.linked in s.pods)
  }

  /** Whatever fails, and at every state in between, the linked pod exists. */
  lemma UpdateStaysServed(n: Naming, s: State, bundle: string, f: Faults)
    requires Served(s)
    ensures forall st :: st in UpdateStates(n, s, bundle, f).1 ==> Served(st)
    ensures Served(AfterUpdate(n, s, bundle, f))
  {
  }

  /** The order matters: without the assumption that the linked pod exists at the start, a
      successful update leaves the catalog served exactly when the new pod is not called like
      the one the annotation names, because that is the one deleted last. */
  lemma ServedAfterSuccessIff(n: Naming, s: State, bundle: string, f: Faults)
    requires UpdateStates(n, s, bundle, f).0
    ensures Served(AfterUpdate(n, s, bundle, f)) <==> n.podName(bundle) != s.podAnnotation || s.podAnnotation == ""
  {
  }

  /** A catalog whose registry pod is gone, updated with a bundle whose pod is called the same:
      the update succeeds and leaves the catalog linked to a pod that does not exist. */
  lemma SameNameUnserved(f: Faults)
    requires !f.rejected && !f.createFails && !f.neverRuns && !f.linkFails
    requires !f.readPreviousFails && !f.deletePreviousFails && !f.removalNotSeen
    ensures var n, s := Naming(image => "p", image => image), State({}, "p", "p", ["image"]);
            && UpdateStates(n, s, "image", f).0
            && AfterUpdate(n, s, "image", f) == State({}, "p", "p", ["image", "image"])
            && !Served(AfterUpdate(n, s, "image", f))
  {
    assert ["image"] + ["image"] == ["image", "image"];
  }

  // ---- what an update does, step by step ----

  /** Exactly when an update succeeds. */
  lemma UpdateSucceedsIff(n: Naming, s: State, bundle: string, f: Faults)
    ensures var pod := n.podName(bundle);
            UpdateStates(n, s, bundle, f).0
            <==> && !f.rejected && pod != "" && pod !in s.pods && !f.createFails && !f.neverRuns && !f.linkFails
                 && (s.podAnnotation != "" ==>
                       && (s.podAnnotation in s.pods || s.podAnnotation == pod)
                       && !f.readPreviousFails && !f.deletePreviousFails && !f.removalNotSeen)
  {
  }

  /** What an update leaves behind, successful or not: the new pod if it was created, the link and
      both annotations if they were stored, and not the pod named before if it was deleted. */
  lemma UpdateLeaves(n: Naming, s: State, bundle: string, f: Faults)
    ensures var pod, s' := n.podName(bundle), AfterUpdate(n, s, bundle, f);
            var created := !f.rejected && pod != "" && pod !in s.pods && !f.createFails;
            var linked := created && !f.neverRuns && (!f.linkFails || f.linkStored);
            var deleted := linked && !f.linkFails && s.podAnnotation != "" && s.podAnnotation in s.pods + {pod}
                           && !f.readPreviousFails && !f.deletePreviousFails;
            && s'.pods == s.pods + (if created then {pod} else {}) - (if deleted then {s.podAnnotation} else {})
            && s'.linked == (if linked then pod else s.linked)
            && s'.podAnnotation == (if linked then pod else s.podAnnotation)
            && s'.injected == if linked then s.injected + [bundle] else s.injected
  {
  }

  /** A successful update ends with the new pod, linked, and without the pod named before. */
  lemma SuccessfulUpdate(n: Naming, s: State, bundle: string, f: Faults)
    requires UpdateStates(n, s, bundle, f).0
    ensures var pod, s' := n.podName(bundle), AfterUpdate(n, s, bundle, f);
            && s'.pods == (if s.podAnnotation == "" then s.pods + {pod} else s.pods + {pod} - {s.podAnnotation})
            && s'.linked == pod && s'.podAnnotation == pod && s'.injected == s.injected + [bundle]
            && pod !in s.pods && pod != ""
  {
    UpdateSucceedsIff(n, s, bundle, f);
    UpdateLeaves(n, s, bundle, f);
  }

  /** If the pod named before cannot be found, read or deleted, or its removal is not seen, the
      update fails. */
  lemma PreviousPodMustGo(n: Naming, s: State, bundle: string, f: Faults)
    requires s.podAnnotation != ""
    requires f.readPreviousFails || f.deletePreviousFails || f.removalNotSeen
             || (s.podAnnotation !in s.pods && s.podAnnotation != n.podName(bundle))
    ensures !UpdateStates(n, s, bundle, f).0
  {
  }

  datatype Request = Request(bundle: string, faults: Faults)

  function AfterUpdates(n: Naming, s: State, rs: seq<Request>): State
    decreases |rs|
  {
    if rs == [] then s else AfterUpdates(n, AfterUpdate(n, s, rs[0].bundle, rs[0].faults), rs[1..])
  }

  /** Whatever fails, the catalog is served after any number of updates and in every state of the
      next one. */
  lemma {:induction false} AlwaysServed(n: Naming, s: State, rs: seq<Request>, k: nat)
    requires Served(s) && k <= |rs|
    ensures var after := AfterUpdates(n, s, rs[..k]);
            Served(after)
            && (k < |rs| ==> forall st :: st in UpdateStates(n, after, rs[k].bundle, rs[k].faults).1 ==> Served(st))
    decreases k
  {
    if rs != [] { UpdateStaysServed(n, s, rs[0].bundle, rs[0].faults); }
    if k > 0 {
      assert rs[..k][1..] == rs[1..][..k - 1];
      AlwaysServed(n, AfterUpdate(n, s, rs[0].bundle, rs[0].faults), rs[1..], k - 1);
    }
  }

  // ---- which pods there are ----

  /** The new pods have names of their own. */
  ghost predicate OwnPodNames(n: Naming, s: State, rs: seq<Request>) {
    && (forall i :: 0 <= i < |rs| ==> n.podName(rs[i].bundle) != s.podAnnotation)
    && forall i, j :: 0 <= i < j < |rs| ==> n.podName(rs[i].bundle) != n.podName(rs[j].bundle)
  }

  /** After successful updates the pods are those there were without the one named at first, and
      the newest. */
  lemma {:induction false} OnlyNewestPod(n: Naming, s: State, rs: seq<Request>)
    requires rs != [] && AllSucceed(n, s, rs) && OwnPodNames(n, s, rs) && s.podAnnotation != ""
    ensures var last := n.podName(rs[|rs| - 1].bundle);
            && AfterUpdates(n, s, rs).pods == s.pods - {s.podAnnotation} + {last}
            && AfterUpdates(n, s, rs).linked == last
    decreases |rs|
  {
    var pod, next, rest := n.podName(rs[0].bundle), AfterUpdate(n, s, rs[0].bundle, rs[0].faults), rs[1..];
    SuccessfulUpdate(n, s, rs[0].bundle, rs[0].faults);
    if rest != [] {
      assert forall i :: 0 <= i < |rest| ==> rest[i] == rs[i + 1];
      OnlyNewestPod(n, next, rest);
      assert next.pods - {pod} == s.pods - {s.podAnnotation};
    } else {
      assert AfterUpdates(n, next, rest) == next;
    }
  }

  // ---- annotations and channels ----

  ghost predicate AllSucceed(n: Naming, s: State, rs: seq<Request>)
    decreases |rs|
  {
    rs == [] || (UpdateStates(n, s, rs[0].bundle, rs[0].faults).0
                 && AllSucceed(n, AfterUpdate(n, s, rs[0].bundle, rs[0].faults), rs[1..]))
  }

  function Bundles(rs: seq<Request>): (r: seq<string>)
    ensures |r| == |rs|
  {
    seq(|rs|, i requires 0 <= i < |rs| => rs[i].bundle)
  }

  /** After successful updates the annotation lists all injected bundles in order. */
  lemma {:induction false} InjectedInOrder(n: Naming, s: State, rs: seq<Request>)
    requires AllSucceed(n, s, rs)
    ensures AfterUpdates(n, s, rs).injected == s.injected + Bundles(rs)
    decreases |rs|
  {
    if rs == [] {
      assert s.injected + Bundles(rs) == s.injected;
    } else {
      var next := AfterUpdate(n, s, rs[0].bundle, rs[0].faults);
      InjectedInOrder(n, next, rs[1..]);
      assert Bundles(rs) == [rs[0].bundle] + Bundles(rs[1..]);
      assert (s.injected + [rs[0].bundle]) + Bundles(rs[1..]) == s.injected + Bundles(rs);
    }
  }

  /** The next update upgrades a channel of the index if no bundle was ever injected. Otherwise the
      channel it regenerates is the chain of all bundles in order; if their names are real and
      distinct it is acyclic and its only head is the newest bundle. */
  lemma {:induction false} RegeneratedChannelIsChain(n: Naming, s: State, rs: seq<Request>, bundle: string)
    requires AllSucceed(n, s, rs)
    requires var names := BundleNames(n, s.injected + Bundles(rs) + [bundle]); RealNames(names) && NoDuplicates(names)
    ensures var channel := RegeneratedChannel(n, AfterUpdates(n, s, rs), bundle);
            if s.injected + Bundles(rs) == [] then channel.None?
            else channel == Some(Chain(BundleNames(n, s.injected + Bundles(rs) + [bundle])))
                 && Acyclic(channel.value) && Heads(channel.value) == {n.bundleName(bundle)}
  {
    var names := BundleNames(n, s.injected + Bundles(rs) + [bundle]);
    InjectedInOrder(n, s, rs);
    ChainAcyclic(names);
    ChainHead(names);
    assert names[|names| - 1] == n.bundleName(bundle);
    assert names[|names| - 1] !in names[..|names| - 1];
  }
}
