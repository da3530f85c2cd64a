/** What the patch of a live object does, given what the library sees of the documents. */
module SeenDocuments {
  import opened Wrappers
  import opened Seqs
  import opened JsonPatch
  import opened PatchApplication
  import opened PatchConvergence

  // ---- documents the library sees all of ----

  /** No key at any depth needs an escape sequence other than that of a quotation mark. */
  predicate AllListed(doc: Json) {
    match doc
    case Obj(f) => forall k :: k in f ==> Listed(k) && AllListed(f[k])
    case Arr(items) => forall i :: 0 <= i < |items| ==> AllListed(items[i])
    case _ => true
  }

  /** The library sees the whole document exactly when all its keys are listed. */
  lemma {:induction false} SeenIff(doc: Json)
    ensures AllListed(Seen(doc))
    ensures Seen(doc) == doc <==> AllListed(doc)
  {
    match doc
    case Obj(f) =>
      forall k | k in f ensures AllListed(Seen(f[k])) && (Seen(f[k]) == f[k] <==> AllListed(f[k])) { SeenIff(f[k]); }
      var g := Seen(doc).fields;
      if Seen(doc) == doc {
        assert forall k :: k in f ==> k in g && g[k] == Seen(f[k]);
      }
    case Arr(items) =>
      forall i | 0 <= i < |items|
        ensures AllListed(Seen(items[i])) && (Seen(items[i]) == items[i] <==> AllListed(items[i]))
      {
        SeenIff(items[i]);
      }
      var seen := Seen(doc).items;
      if Seen(doc) == doc {
        assert forall i :: 0 <= i < |items| ==> seen[i] == Seen(items[i]);
      }
    case _ =>
  }

  lemma {:induction false} SeenScalars(items: seq<Json>)
    ensures ScalarsOnly(Seen(Arr(items)).items) <==> ScalarsOnly(items)
    ensures ScalarsOnly(items) ==> Seen(Arr(items)).items == items
  {
    var seen := Seen(Arr(items)).items;
    assert forall i :: 0 <= i < |items| ==> seen[i] == Seen(items[i]);
  }

  /** What is covered is covered as far as the library sees it. */
  lemma {:induction false} CoversSeen(a: Json, b: Json)
    requires Covers(a, b)
    ensures Covers(a, Seen(b))
    decreases b
  {
    match b
    case Obj(fb) =>
      forall k | k in Seen(b).fields && k in a.fields
        ensures Covers(a.fields[k], Seen(b).fields[k])
      {
        CoversSeen(a.fields[k], fb[k]);
      }
    case Arr(ib) =>
      SeenScalars(ib);
      if !(ScalarsOnly(a.items) && ScalarsOnly(ib)) {
        var seen := Seen(b).items;
        forall i | 0 <= i < |ib| ensures if i < |a.items| then Covers(a.items[i], seen[i]) else seen[i] == Null {
          if i < |a.items| { CoversSeen(a.items[i], ib[i]); }
        }
      }
    case _ =>
  }

  // ---- of the live object it is enough what the library sees ----

  lemma {:induction false} SameFieldsSent(order: KeyOrder, fa: map<string, Json>, w: Json, keys: seq<string>)
    requires w.Obj? && AllListed(w)
    ensures Filter(DiffFields(order, Seen(Obj(fa)).fields, w, keys)) == Filter(DiffFields(order, fa, w, keys))
    decreases w, 0, |keys|
  {
    if keys != [] {
      var k, rest, seen := keys[0], keys[1..], Seen(Obj(fa)).fields;
      SameFieldsSent(order, fa, w, rest);
      FilterConcat(FieldOps(order, seen, w, k), DiffFields(order, seen, w, rest));
      FilterConcat(FieldOps(order, fa, w, k), DiffFields(order, fa, w, rest));
      assert DiffFields(order, seen, w, keys) == FieldOps(order, seen, w, k) + DiffFields(order, seen, w, rest);
      assert DiffFields(order, fa, w, keys) == FieldOps(order, fa, w, k) + DiffFields(order, fa, w, rest);
      if k in w.fields && k in fa {
        SameSent(order, fa[k], w.fields[k]);
        FilterUnder(Field(k), Diff(order, fa[k], w.fields[k]));
        FilterUnder(Field(k), Diff(order, seen[k], w.fields[k]));
      }
    }
  }

  lemma {:induction false} SameItemsSent(order: KeyOrder, ia: seq<Json>, w: Json, n: nat)
    requires w.Arr? && AllListed(w) && n <= |ia| && n <= |w.items|
    ensures Filter(DiffItems(order, Seen(Arr(ia)).items, w, n)) == Filter(DiffItems(order, ia, w, n))
    decreases w, 0, n
  {
    if n > 0 {
      var m, seen := n - 1, Seen(Arr(ia)).items;
      SameItemsSent(order, ia, w, m);
      SameSent(order, ia[m], w.items[m]);
      FilterConcat(DiffItems(order, seen, w, m), Under(Index(m), Diff(order, seen[m], w.items[m])));
      FilterConcat(DiffItems(order, ia, w, m), Under(Index(m), Diff(order, ia[m], w.items[m])));
      FilterUnder(Index(m), Diff(order, seen[m], w.items[m]));
      FilterUnder(Index(m), Diff(order, ia[m], w.items[m]));
    }
  }

  lemma {:induction false} SameSent(order: KeyOrder, a: Json, w: Json)
    requires AllListed(w)
    ensures Filter(Diff(order, Seen(a), w)) == Filter(Diff(order, a, w))
    decreases w, 1, 0
  {
    match (a, w)
    case (Obj(fa), Obj(fw)) =>
      FilteredObjectDiff(order, fa, w);
      FilteredObjectDiff(order, Seen(a).fields, w);
      SameFieldsSent(order, fa, w, order(fw));
    case (Arr(ia), Arr(iw)) =>
      SeenScalars(ia);
      if !(ScalarsOnly(ia) && ScalarsOnly(iw)) {
        FilteredArrayDiff(order, ia, iw);
        FilteredArrayDiff(order, Seen(a).items, iw);
        SameItemsSent(order, ia, w, Shorter(ia, iw));
      }
    case _ =>
  }

  lemma {:induction false} SentForLive(order: KeyOrder, a: Json, b: Json)
    ensures Sent(order, a, b) == Filter(Diff(order, a, Seen(b)))
  {
    SeenIff(b);
    SameSent(order, a, Seen(b));
  }

  // ---- what the patch achieves ----

  /** What is left of the live object when the patch has been applied, if it applies. */
  function Result(order: KeyOrder, a: Json, b: Json): Option<Json> { ApplyAll(a, Sent(order, a, b)) }

  /** For any two documents: the patch applies and lays what the library sees of the expected
      document over the live one if and only if such a patch can. */
  lemma {:induction false} ResultLaysOverIff(order: KeyOrder, a: Json, b: Json)
    requires OrdersKeys(order)
    ensures Result(order, a, b) == Some(Overlay(a, Seen(b))) <==> Patchable(a, Seen(b))
  {
    SentForLive(order, a, b);
    PatchLaysOverIff(order, a, Seen(b));
  }

  /** Unless a live null of a list meets a value, it applies only then. */
  lemma {:induction false} ResultExistsIff(order: KeyOrder, a: Json, b: Json)
    requires OrdersKeys(order) && NoNullMeets(a, Seen(b))
    ensures Result(order, a, b).Some? <==> Patchable(a, Seen(b))
  {
    SentForLive(order, a, b);
    AppliesIff(order, a, Seen(b));
  }

  /** Nothing is sent exactly when the live object has everything the library sees. */
  lemma {:induction false} NothingSentIff(order: KeyOrder, a: Json, b: Json)
    requires OrdersKeys(order)
    ensures Sent(order, a, b) == [] <==> Covers(a, Seen(b))
  {
    SentForLive(order, a, b);
    NothingToSend(order, a, Seen(b));
  }

  /** The patch applies, the result has everything the library sees of what is expected, keeps
      everything else, and leaves no patch to send, whatever the key order next time. */
  ghost predicate Converges(order: KeyOrder, again: KeyOrder, a: Json, b: Json) {
    var r := Result(order, a, b);
    && r.Some?
    && Covers(r.value, Seen(b))
    && KeepsRest(r.value, a, Seen(b))
    && Sent(again, r.value, b) == []
  }

  lemma {:induction false} PatchConverges(order: KeyOrder, again: KeyOrder, a: Json, b: Json)
    requires OrdersKeys(order) && OrdersKeys(again) && Patchable(a, Seen(b))
    ensures Result(order, a, b) == Some(Overlay(a, Seen(b))) && Converges(order, again, a, b)
  {
    ResultLaysOverIff(order, a, b);
    OverlayCovers(a, Seen(b));
    OverlayKeepsRest(a, Seen(b));
    NothingSentIff(again, Overlay(a, Seen(b)), b);
  }

  /** Unless a live null of a list meets a value, that is exactly when the patch converges. */
  lemma {:induction false} ConvergesIff(order: KeyOrder, again: KeyOrder, a: Json, b: Json)
    requires OrdersKeys(order) && OrdersKeys(again) && NoNullMeets(a, Seen(b))
    ensures Converges(order, again, a, b) <==> Patchable(a, Seen(b))
  {
    ResultExistsIff(order, a, b);
    if Patchable(a, Seen(b)) { PatchConverges(order, again, a, b); }
  }

  /** A missing field whose key JSON writes with an escape sequence is not sent. */
  lemma {:induction false} EscapedKeyIsNotSent(order: KeyOrder, x: string)
    requires OrdersKeys(order)
    ensures var live, expected := Obj(map[]), Obj(map["a&b" := Scalar(x)]);
            Sent(order, live, expected) == [] && !Covers(live, expected)
  {
    var expected := Obj(map["a&b" := Scalar(x)]);
    assert "a&b"[1] == '&' && Escaped('&');
    assert !Listed("a&b");
    assert forall k :: k in Seen(expected).fields ==> k == "a&b" && Listed(k);
    assert Seen(expected).fields == map[];
    NothingSentIff(order, Obj(map[]), expected);
    assert "a&b" in expected.fields;
  }

  // ---- ordinary keys ----

  /** No control character, backslash, angle bracket, ampersand, or line or paragraph separator. */
  predicate Ordinary(key: string) {
    forall i :: 0 <= i < |key| ==>
      && key[i] as int >= 0x20 && key[i] as int != 0x2028 && key[i] as int != 0x2029
      && key[i] != '\\' && key[i] != '<' && key[i] != '>' && key[i] != '&'
  }

  predicate OrdinaryKeys(doc: Json) {
    match doc
    case Obj(f) => forall k :: k in f ==> Ordinary(k) && OrdinaryKeys(f[k])
    case Arr(items) => forall i :: 0 <= i < |items| ==> OrdinaryKeys(items[i])
    case _ => true
  }

  lemma {:induction false} OrdinaryIsListed(key: string)
    ensures Listed(key) <==> Ordinary(key)
  {
    if Listed(key) {
      forall i | 0 <= i < |key| ensures !Escaped(key[i]) { assert key[i] in key; }
    } else {
      var c :| c in key && Escaped(c);
      var i :| 0 <= i < |key| && key[i] == c;
    }
  }

  lemma {:induction false} OrdinaryIsAllListed(doc: Json)
    ensures AllListed(doc) <==> OrdinaryKeys(doc)
  {
    match doc
    case Obj(f) =>
      forall k | k in f ensures (Listed(k) <==> Ordinary(k)) && (AllListed(f[k]) <==> OrdinaryKeys(f[k])) {
        OrdinaryIsListed(k);
        OrdinaryIsAllListed(f[k]);
      }
    case Arr(items) =>
      forall i | 0 <= i < |items|
        ensures AllListed(items[i]) <==> OrdinaryKeys(items[i])
      {
        OrdinaryIsAllListed(items[i]);
      }
    case _ =>
  }

  /** A document is seen whole exactly if all its keys are ordinary; a field is seen at all exactly
      if its key is. */
  lemma {:induction false} SeenWholeIff(doc: Json)
    ensures Seen(doc) == doc <==> OrdinaryKeys(doc)
    ensures doc.Obj? ==> forall k :: k in Seen(doc).fields <==> k in doc.fields && Ordinary(k)
  {
    SeenIff(doc);
    OrdinaryIsAllListed(doc);
    if doc.Obj? {
      forall k ensures Listed(k) <==> Ordinary(k) { OrdinaryIsListed(k); }
    }
  }

  /** For documents with ordinary keys in which no live null of a list meets a value: the patch
      applies, the result covers the expected document itself, keeps the rest, and leaves nothing
      to send, if and only if no null that is to be appended to a list is followed by a value. */
  lemma {:induction false} OrdinaryConverges(order: KeyOrder, again: KeyOrder, a: Json, b: Json)
    requires OrdersKeys(order) && OrdersKeys(again) && OrdinaryKeys(b) && NoNullMeets(a, b)
    ensures var r := Result(order, a, b);
            r.Some? && Covers(r.value, b) && KeepsRest(r.value, a, b) && Sent(again, r.value, b) == []
            <==> Patchable(a, b)
    ensures Patchable(a, b) ==> Result(order, a, b) == Some(Overlay(a, b))
    ensures Sent(order, a, b) == [] <==> Covers(a, b)
  {
    SeenWholeIff(b);
    ConvergesIff(order, again, a, b);
    ResultLaysOverIff(order, a, b);
    NothingSentIff(order, a, b);
  }

  lemma {:induction false} OnlyKey(keys: seq<string>, k: string)
    requires IsOrder(keys, {k})
    ensures keys == [k]
  {
    ElementCount(keys);
    assert Elements(keys) == {k};
  }

  /** A changed field with an ordinary key is replaced. */
  lemma {:induction false} ChangedFieldIsSent(order: KeyOrder, k: string, x: string, y: string)
    requires OrdersKeys(order) && Ordinary(k) && x != y
    ensures Sent(order, Obj(map[k := Scalar(x)]), Obj(map[k := Scalar(y)])) == [Op(Replace, [Field(k)], Scalar(y))]
  {
    var fa, fb := map[k := Scalar(x)], map[k := Scalar(y)];
    assert OrdinaryKeys(Obj(fb));
    SeenWholeIff(Obj(fb));
    SentForLive(order, Obj(fa), Obj(fb));
    FilteredObjectDiff(order, fa, Obj(fb));
    assert fb.Keys == {k};
    OnlyKey(order(fb), k);
    OneFieldDiff(order, fa, Obj(fb), k, x, y);
  }

  lemma {:induction false} OneFieldDiff(order: KeyOrder, fa: map<string, Json>, b: Json, k: string, x: string,
                                        y: string)
    requires b.Obj? && k in b.fields && k in fa && fa[k] == Scalar(x) && b.fields[k] == Scalar(y) && x != y
    ensures Filter(DiffFields(order, fa, b, [k])) == [Op(Replace, [Field(k)], Scalar(y))]
  {
    var op := Op(Replace, [Field(k)], Scalar(y));
    assert [Field(k)] + [] == [Field(k)];
    assert Under(Field(k), [Op(Replace, [], Scalar(y))]) == [op];
    assert [k][1..] == [] && [op] + [] == [op];
    assert DiffFields(order, fa, b, [k]) == [op];
    FilterCons(op, []);
  }

  /** The field "replicas" of a live object is brought from 1 to 3. */
  lemma {:induction false} ReplicasAreSent(order: KeyOrder)
    requires OrdersKeys(order)
    ensures Sent(order, Obj(map["replicas" := Scalar("1")]), Obj(map["replicas" := Scalar("3")]))
            == [Op(Replace, [Field("replicas")], Scalar("3"))]
  {
    assert Ordinary("replicas");
    assert "1"[0] != "3"[0];
    ChangedFieldIsSent(order, "replicas", "1", "3");
  }
}
