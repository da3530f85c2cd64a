/** Reconciling the objects of a release: creating what is absent and patching what lacks something. */
module ReleaseObjects {
  import opened Wrappers
  import opened JsonPatch
  import opened PatchApplication
  import opened PatchConvergence
  import opened PatchText
  import opened SeenDocuments

  /** An object of the deployed manifest. */
  datatype Expected = Expected(name: string, doc: Json)

  /** Outcomes of the calls for one object: read, create, patch; and what a server makes of a
      patch that it does not read as it is meant, if it takes it. */
  datatype ObjectFaults = ObjectFaults(getFails: bool, createFails: bool, patchFails: bool, misread: Option<Json>)

  ghost predicate DistinctNames(es: seq<Expected>) {
    forall i, j :: 0 <= i < j < |es| ==> es[i].name != es[j].name
  }

  /** The object exists and has everything that is seen to be expected of it. */
  ghost predicate InPlace(objects: map<string, Json>, e: Expected) {
    e.name in objects && Covers(objects[e.name], Seen(e.doc))
  }

  /** The object is absent, or a patch can lay the expected document over it, and all its keys
      keep their meaning in a path. */
  ghost predicate Reconcilable(objects: map<string, Json>, e: Expected) {
    e.name in objects ==> Patchable(objects[e.name], Seen(e.doc)) && AllAddressable(Seen(e.doc))
  }

  /** The object is absent, or no live null of a list meets a value in it, and the keys keep
      their meaning. */
  ghost predicate Regular(objects: map<string, Json>, e: Expected) {
    e.name in objects ==> NoNullMeets(objects[e.name], Seen(e.doc)) && AllAddressable(Seen(e.doc))
  }

  /** The object is absent, or the server takes the patch for it. */
  ghost predicate Accepted(order: KeyOrder, objects: map<string, Json>, e: Expected, faults: ObjectFaults) {
    e.name in objects ==> Patching(order, objects[e.name], e.doc, faults).Some?
  }

  ghost predicate SameObject(objects: map<string, Json>, was: map<string, Json>, name: string) {
    (name in objects <==> name in was) && (name in objects ==> objects[name] == was[name])
  }

  ghost predicate NoFault(f: ObjectFaults) { !f.getFails && !f.createFails && !f.patchFails }

  /** What the patch makes of a live object. */
  function Patching(order: KeyOrder, live: Json, doc: Json, faults: ObjectFaults): Option<Json> {
    if AllIntact(Sent(order, live, doc)) then Result(order, live, doc) else faults.misread
  }

  /** The objects after making sure of one, and whether that went well. A patch that cannot be
      applied is refused by the server. */
  function AfterEnsure(order: KeyOrder, objects: map<string, Json>, e: Expected, faults: ObjectFaults)
    : (map<string, Json>, bool)
  {
    if faults.getFails then (objects, false)
    else if e.name !in objects then
      if faults.createFails then (objects, false) else (objects[e.name := e.doc], true)
    else if Covers(objects[e.name], Seen(e.doc)) then (objects, true)
    else
      var patched := Patching(order, objects[e.name], e.doc, faults);
      if faults.patchFails || patched.None? then (objects, false) else (objects[e.name := patched.value], true)
  }

  function AfterAll(order: KeyOrder, objects: map<string, Json>, expected: seq<Expected>, faults: seq<ObjectFaults>)
    : (map<string, Json>, bool)
    requires |faults| == |expected|
    decreases |expected|
  {
    if expected == [] then (objects, true)
    else
      var (next, ok) := AfterEnsure(order, objects, expected[0], faults[0]);
      if ok then AfterAll(order, next, expected[1..], faults[1..]) else (next, false)
  }

  // ---- what the two achieve ----

  /** What has been made sure of: it is in place and nothing else of it is lost. */
  ghost predicate Done(was: map<string, Json>, objects: map<string, Json>, e: Expected) {
    Reconcilable(was, e) ==>
      InPlace(objects, e) && (e.name in was ==> KeepsRest(objects[e.name], was[e.name], Seen(e.doc)))
  }

  lemma {:induction false} PatchOne(order: KeyOrder, live: Json, doc: Json, faults: ObjectFaults)
    requires OrdersKeys(order)
    ensures Covers(live, Seen(doc)) ==> Patching(order, live, doc, faults) == Some(live)
    ensures Patchable(live, Seen(doc)) && AllAddressable(Seen(doc)) ==>
              var r := Patching(order, live, doc, faults);
              r.Some? && Covers(r.value, Seen(doc)) && KeepsRest(r.value, live, Seen(doc))
    ensures NoNullMeets(live, Seen(doc)) && AllAddressable(Seen(doc)) ==>
              (Patching(order, live, doc, faults).Some? <==> Patchable(live, Seen(doc)))
  {
    NothingSentIff(order, live, doc);
    if AllAddressable(Seen(doc)) {
      SentIsIntact(order, live, doc);
      if Patchable(live, Seen(doc)) { PatchConverges(order, order, live, doc); }
      if NoNullMeets(live, Seen(doc)) { ResultExistsIff(order, live, doc); }
    }
  }

  lemma {:induction false} EnsureOne(order: KeyOrder, objects: map<string, Json>, e: Expected, faults: ObjectFaults)
    requires OrdersKeys(order)
    ensures var (after, ok) := AfterEnsure(order, objects, e, faults);
            && (ok ==> Done(objects, after, e))
            && (forall n :: n != e.name ==> SameObject(after, objects, n))
            && (NoFault(faults) ==> (ok <==> Accepted(order, objects, e, faults)))
            && (InPlace(objects, e) ==> after == objects)
  {
    if e.name !in objects {
      CoversItself(e.doc);
      CoversSeen(e.doc, e.doc);
    } else {
      PatchOne(order, objects[e.name], e.doc, faults);
    }
  }

  lemma {:induction false} AcceptedIff(order: KeyOrder, objects: map<string, Json>, e: Expected, faults: ObjectFaults)
    requires OrdersKeys(order) && Regular(objects, e)
    ensures Accepted(order, objects, e, faults) <==> Reconcilable(objects, e)
  {
    if e.name in objects { PatchOne(order, objects[e.name], e.doc, faults); }
  }

  ghost predicate Named(expected: seq<Expected>, name: string) {
    exists e :: e in expected && e.name == name
  }

  lemma {:induction false} NamesApart(expected: seq<Expected>)
    requires expected != [] && DistinctNames(expected)
    ensures DistinctNames(expected[1..]) && !Named(expected[1..], expected[0].name)
    ensures forall e :: e in expected <==> e == expected[0] || e in expected[1..]
    ensures forall n :: Named(expected, n) <==> n == expected[0].name || Named(expected[1..], n)
  {
    assert expected == [expected[0]] + expected[1..];
  }

  lemma {:induction false} SameForOthers(objects: map<string, Json>, was: map<string, Json>, e: Expected)
    requires SameObject(objects, was, e.name)
    ensures InPlace(objects, e) <==> InPlace(was, e)
    ensures Reconcilable(objects, e) <==> Reconcilable(was, e)
    ensures forall order, f :: Accepted(order, objects, e, f) <==> Accepted(order, was, e, f)
    ensures forall after :: Done(objects, after, e) <==> Done(was, after, e)
    ensures forall before :: Done(before, objects, e) <==> Done(before, was, e)
  {
  }

  lemma {:induction false} OthersUntouched(order: KeyOrder, objects: map<string, Json>, expected: seq<Expected>,
                                           faults: seq<ObjectFaults>, name: string)
    requires |faults| == |expected| && !Named(expected, name)
    ensures SameObject(AfterAll(order, objects, expected, faults).0, objects, name)
    decreases |expected|
  {
    if expected != [] {
      assert !Named(expected[1..], name);
      var next := AfterEnsure(order, objects, expected[0], faults[0]).0;
      OthersUntouched(order, next, expected[1..], faults[1..], name);
    }
  }

  /** If all went well every object has what is seen to be expected of it, provided it was absent
      or its patch lays that over it. */
  lemma {:induction false} EnsureAll(order: KeyOrder, objects: map<string, Json>, expected: seq<Expected>,
                                     faults: seq<ObjectFaults>)
    requires OrdersKeys(order) && DistinctNames(expected) && |faults| == |expected|
    ensures var (after, ok) := AfterAll(order, objects, expected, faults);
            ok ==> forall e :: e in expected ==> Done(objects, after, e)
    decreases |expected|
  {
    if expected != [] {
      var e, rest := expected[0], expected[1..];
      var (next, ok) := AfterEnsure(order, objects, e, faults[0]);
      NamesApart(expected);
      EnsureOne(order, objects, e, faults[0]);
      if ok {
        EnsureAll(order, next, rest, faults[1..]);
        OthersUntouched(order, next, rest, faults[1..], e.name);
        var (after, allOk) := AfterAll(order, next, rest, faults[1..]);
        SameForOthers(after, next, e);
        forall other | other in rest && allOk ensures Done(objects, after, other) {
          assert Done(next, after, other) && Named(rest, other.name);
          SameForOthers(next, objects, other);
        }
      }
    }
  }

  ghost predicate AllAccepted(order: KeyOrder, objects: map<string, Json>, expected: seq<Expected>,
                              faults: seq<ObjectFaults>)
    requires |faults| == |expected|
  {
    forall i :: 0 <= i < |expected| ==> Accepted(order, objects, expected[i], faults[i])
  }

  lemma {:induction false} AllAcceptedHead(order: KeyOrder, objects: map<string, Json>, next: map<string, Json>,
                                           expected: seq<Expected>, faults: seq<ObjectFaults>)
    requires expected != [] && |faults| == |expected| && DistinctNames(expected)
    requires forall n :: n != expected[0].name ==> SameObject(next, objects, n)
    ensures AllAccepted(order, objects, expected, faults)
       <==> Accepted(order, objects, expected[0], faults[0]) && AllAccepted(order, next, expected[1..], faults[1..])
  {
    var rest := expected[1..];
    forall i | 0 <= i < |rest|
      ensures Accepted(order, next, rest[i], faults[1..][i])
         <==> Accepted(order, objects, expected[i + 1], faults[i + 1])
    {
      SameForOthers(next, objects, rest[i]);
    }
    assert forall i :: 1 <= i < |expected| ==> expected[i] == rest[i - 1] && faults[i] == faults[1..][i - 1];
  }

  lemma {:induction false} SucceedsIff(order: KeyOrder, objects: map<string, Json>, expected: seq<Expected>,
                                       faults: seq<ObjectFaults>)
    requires OrdersKeys(order) && DistinctNames(expected) && |faults| == |expected|
    requires forall f :: f in faults ==> NoFault(f)
    ensures AfterAll(order, objects, expected, faults).1 <==> AllAccepted(order, objects, expected, faults)
    decreases |expected|
  {
    if expected != [] {
      var (next, ok) := AfterEnsure(order, objects, expected[0], faults[0]);
      NamesApart(expected);
      EnsureOne(order, objects, expected[0], faults[0]);
      AllAcceptedHead(order, objects, next, expected, faults);
      if ok { SucceedsIff(order, next, expected[1..], faults[1..]); }
    }
  }

  /** Without faults everything goes well exactly when the server takes every patch; and, for
      objects in which no live null of a list meets a value and whose keys keep their meaning,
      exactly when each is absent or a patch can lay the expected document over it. */
  lemma {:induction false} EnsureAllSucceeds(order: KeyOrder, objects: map<string, Json>, expected: seq<Expected>,
                                             faults: seq<ObjectFaults>)
    requires OrdersKeys(order) && DistinctNames(expected) && |faults| == |expected|
    requires forall f :: f in faults ==> NoFault(f)
    ensures AfterAll(order, objects, expected, faults).1 <==> AllAccepted(order, objects, expected, faults)
    ensures (forall e :: e in expected ==> Regular(objects, e)) ==>
              (AfterAll(order, objects, expected, faults).1 <==> forall e :: e in expected ==> Reconcilable(objects, e))
  {
    SucceedsIff(order, objects, expected, faults);
    if forall e :: e in expected ==> Regular(objects, e) {
      forall i | 0 <= i < |expected|
        ensures Accepted(order, objects, expected[i], faults[i]) <==> Reconcilable(objects, expected[i])
      {
        assert expected[i] in expected;
        AcceptedIff(order, objects, expected[i], faults[i]);
      }
    }
  }

  /** Every key at every depth is ordinary, not empty, and has no quotation mark. */
  predicate PlainKeys(doc: Json) {
    match doc
    case Obj(f) => forall k :: k in f ==> k != "" && '"' !in k && Ordinary(k) && PlainKeys(f[k])
    case Arr(items) => forall i :: 0 <= i < |items| ==> PlainKeys(items[i])
    case _ => true
  }

  lemma {:induction false} PlainIsSeenAndAddressed(doc: Json)
    requires PlainKeys(doc)
    ensures OrdinaryKeys(doc) && AllAddressable(doc) && Seen(doc) == doc
  {
    match doc
    case Obj(f) =>
      forall k | k in f ensures OrdinaryKeys(f[k]) && AllAddressable(f[k]) { PlainIsSeenAndAddressed(f[k]); }
      SeenWholeIff(doc);
    case Arr(items) =>
      forall i | 0 <= i < |items|
        ensures OrdinaryKeys(items[i]) && AllAddressable(items[i])
      {
        PlainIsSeenAndAddressed(items[i]);
      }
      SeenWholeIff(doc);
    case _ =>
  }

  /** For documents with plain keys: if all went well, everything that is expected of an object is
      there and everything else it had still is, provided it was absent or a patch could lay the
      expected document over it. */
  lemma {:induction false} EnsureAllPlain(order: KeyOrder, objects: map<string, Json>, expected: seq<Expected>,
                                          faults: seq<ObjectFaults>, e: Expected)
    requires OrdersKeys(order) && DistinctNames(expected) && |faults| == |expected| && e in expected
    requires PlainKeys(e.doc) && (e.name in objects ==> Patchable(objects[e.name], e.doc))
    requires AfterAll(order, objects, expected, faults).1
    ensures var after := AfterAll(order, objects, expected, faults).0;
            && e.name in after && Covers(after[e.name], e.doc)
            && (e.name in objects ==> KeepsRest(after[e.name], objects[e.name], e.doc))
  {
    PlainIsSeenAndAddressed(e.doc);
    EnsureAll(order, objects, expected, faults);
    assert Done(objects, AfterAll(order, objects, expected, faults).0, e);
  }

  /** Exactly when making sure of one object succeeds; if it does not, nothing is changed. */
  lemma {:induction false} EnsureSucceedsIff(order: KeyOrder, objects: map<string, Json>, e: Expected,
                                             faults: ObjectFaults)
    ensures var (after, ok) := AfterEnsure(order, objects, e, faults);
            && (ok <==> && !faults.getFails
                        && (if e.name !in objects then !faults.createFails
                            else Covers(objects[e.name], Seen(e.doc))
                                 || (!faults.patchFails && Patching(order, objects[e.name], e.doc, faults).Some?)))
            && (!ok ==> after == objects)
            && (ok && e.name !in objects ==> after == objects[e.name := e.doc])
  {
  }

  /** The objects are made sure of one by one up to the first for which it fails, and the later
      ones are not touched. */
  lemma {:induction false} StopsAtFirstFailure(order: KeyOrder, objects: map<string, Json>, expected: seq<Expected>,
                                               faults: seq<ObjectFaults>) returns (k: nat)
    requires |faults| == |expected|
    ensures k <= |expected|
    ensures var (after, ok) := AfterAll(order, objects, expected, faults);
            var (before, fine) := AfterAll(order, objects, expected[..k], faults[..k]);
            && fine && after == before && ok == (k == |expected|)
            && (k < |expected| ==> !AfterEnsure(order, before, expected[k], faults[k]).1)
    decreases |expected|
  {
    k := 0;
    assert expected[..0] == [] && faults[..0] == [];
    if expected != [] {
      var (next, ok) := AfterEnsure(order, objects, expected[0], faults[0]);
      EnsureSucceedsIff(order, objects, expected[0], faults[0]);
      if ok {
        var later := StopsAtFirstFailure(order, next, expected[1..], faults[1..]);
        k := later + 1;
        assert expected[..k][1..] == expected[1..][..later] && faults[..k][1..] == faults[1..][..later];
        assert expected[..k][0] == expected[0] && faults[..k][0] == faults[0];
      }
    }
  }

  /** What is in place is left alone. */
  lemma {:induction false} EnsureAllAgain(order: KeyOrder, objects: map<string, Json>, expected: seq<Expected>,
                                          faults: seq<ObjectFaults>)
    requires |faults| == |expected| && forall e :: e in expected ==> InPlace(objects, e)
    ensures AfterAll(order, objects, expected, faults).0 == objects
    decreases |expected|
  {
    if expected != [] {
      assert InPlace(objects, expected[0]);
      EnsureAllAgain(order, objects, expected[1..], faults[1..]);
    }
  }

  /** A key with a quotation mark: the operation is malformed, and it is not up to the patch what
      becomes of the object. */
  lemma {:induction false} QuotedKeyIsMisread(order: KeyOrder, x: string, y: string, faults: ObjectFaults)
    requires OrdersKeys(order) && x != y
    ensures Patching(order, Obj(map["\"" := Scalar(x)]), Obj(map["\"" := Scalar(y)]), faults) == faults.misread
  {
    ChangedFieldIsSent(order, "\"", x, y);
    OddPaths();
    assert !Intact(Op(Replace, [Field("\"")], Scalar(y)));
  }

  class ObjectStore {
    var objects: map<string, Json>
    var writes: nat

    constructor (objects: map<string, Json>)
      ensures this.objects == objects && writes == 0
    {
      this.objects, writes := objects, 0;
    }

    /** Creates the object if it is absent, patches it if it lacks something. */
    method Ensure(order: KeyOrder, e: Expected, faults: ObjectFaults) returns (ok: bool)
      requires OrdersKeys(order)
      modifies this
      ensures (objects, ok) == AfterEnsure(order, old(objects), e, faults)
      ensures ok ==> Done(old(objects), objects, e)
      ensures NoFault(faults) ==> (ok <==> old(Accepted(order, objects, e, faults)))
      ensures old(InPlace(objects, e)) ==> writes == old(writes)
    {
      EnsureOne(order, objects, e, faults);
      if faults.getFails {
        return false;
      }
      if e.name !in objects {
        if faults.createFails {
          return false;
        }
        objects := objects[e.name := e.doc];
        writes := writes + 1;
        return true;
      }
      NothingSentIff(order, objects[e.name], e.doc);
      var patch := CreateJSONMergePatch(order, objects[e.name], e.doc);
      if patch.None? {
        return true;
      }
      if faults.patchFails {
        return false;
      }
      var patched := if AllIntact(patch.value) then ApplyAll(objects[e.name], patch.value) else faults.misread;
      if patched.None? {
        return false;
      }
      objects := objects[e.name := patched.value];
      writes := writes + 1;
      ok := true;
    }

    /** Visits the expected objects in order and stops at the first error. */
    method ReconcileRelease(order: KeyOrder, expected: seq<Expected>, faults: seq<ObjectFaults>) returns (ok: bool)
      requires OrdersKeys(order) && |faults| == |expected|
      modifies this
      ensures (objects, ok) == AfterAll(order, old(objects), expected, faults)
      ensures DistinctNames(expected) && ok ==> forall e :: e in expected ==> Done(old(objects), objects, e)
      ensures forall n :: !Named(expected, n) ==> SameObject(objects, old(objects), n)
      ensures DistinctNames(expected) && (forall f :: f in faults ==> NoFault(f)) ==>
                (ok <==> old(AllAccepted(order, objects, expected, faults)))
      ensures (forall e :: e in expected ==> old(InPlace(objects, e))) ==>
                objects == old(objects) && writes == old(writes)
    {
      if DistinctNames(expected) {
        EnsureAll(order, objects, expected, faults);
        if forall f :: f in faults ==> NoFault(f) { EnsureAllSucceeds(order, objects, expected, faults); }
      }
      forall n | !Named(expected, n) ensures SameObject(AfterAll(order, objects, expected, faults).0, objects, n) {
        OthersUntouched(order, objects, expected, faults, n);
      }
      ok := true;
      ghost var rest, faultsLeft := expected, faults;
      for i := 0 to |expected|
        invariant ok && rest == expected[i..] && faultsLeft == faults[i..]
        invariant AfterAll(order, objects, rest, faultsLeft) == AfterAll(order, old(objects), expected, faults)
        invariant (forall e :: e in expected ==> old(InPlace(objects, e))) ==>
                    objects == old(objects) && writes == old(writes)
      {
        var e := expected[i];
        assert e in expected;
        ok := Ensure(order, e, faults[i]);
        if !ok {
          return;
        }
        rest, faultsLeft := rest[1..], faultsLeft[1..];
      }
    }
  }
}
