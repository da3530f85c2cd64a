/** What the list of related images says about the environment it was collected from. */
module RelatedImagesProofs {
  import opened Seqs
  import opened Text
  import opened RelatedImages

  // ---- what is recorded ----

  /** The images the prefixed variables describe, in order. */
  function Entries(vars: seq<Var>): seq<Image> {
    if vars == [] then []
    else (if HasPrefix(vars[0].env.name, PREFIX) then [ImageOf(vars[0])] else []) + Entries(vars[1..])
  }

  /** Collecting fails exactly when some prefixed variable takes its value from elsewhere, and
      otherwise records all the entries. */
  lemma {:induction false} CollectedRecordsEntries(images: seq<Image>, vars: seq<Var>)
    ensures Collected(images, vars).1 <==> forall v :: v in vars ==> !Unsupported(v)
    ensures Collected(images, vars).1 ==> Collected(images, vars).0 == Recorded(images, Entries(vars))
    decreases vars
  {
    if vars != [] {
      assert vars == [vars[0]] + vars[1..];
      if !HasPrefix(vars[0].env.name, PREFIX) {
        CollectedRecordsEntries(images, vars[1..]);
        assert [] + Entries(vars[1..]) == Entries(vars[1..]);
      } else if !vars[0].env.hasValueFrom {
        CollectedRecordsEntries(Add(images, ImageOf(vars[0])), vars[1..]);
        assert ([ImageOf(vars[0])] + Entries(vars[1..]))[1..] == Entries(vars[1..]);
      } else {
        assert Unsupported(vars[0]);
      }
    }
  }

  /** Recording keeps keys distinct and records every key it was given. */
  lemma {:induction false} RecordedKeys(images: seq<Image>, entries: seq<Image>)
    requires DistinctKeys(images)
    ensures DistinctKeys(Recorded(images, entries))
    ensures Keys(Recorded(images, entries)) == Keys(images) + Keys(entries)
    decreases entries
  {
    if entries != [] {
      var next := Add(images, entries[0]);
      KeysAfter(images, entries[0]);
      KeysOfCons(entries[0], entries[1..]);
      assert Keys(next) == Keys(images) + {KeyOf(entries[0])};
      RecordedKeys(next, entries[1..]);
      assert entries == [entries[0]] + entries[1..];
    }
  }

  /** Recording forgets nothing and invents nothing. */
  lemma {:induction false} RecordedElements(images: seq<Image>, entries: seq<Image>)
    ensures forall im :: im in images ==> im in Recorded(images, entries)
    ensures forall im :: im in Recorded(images, entries) ==> im in images || im in entries
    decreases entries
  {
    if entries != [] {
      var next := Add(images, entries[0]);
      assert forall im :: im in next ==> im in images || im == entries[0];
      RecordedElements(next, entries[1..]);
    }
  }

  lemma KeysOfCons(im: Image, more: seq<Image>)
    ensures Keys([im] + more) == {KeyOf(im)} + Keys(more)
  {
    assert im in [im] + more;
    forall k | k in Keys(more) ensures k in Keys([im] + more) {
      var x :| x in more && KeyOf(x) == k;
      assert x in [im] + more;
    }
  }

  predicate SamePair(a: Image, b: Image) { a.name == b.name && a.ref == b.ref }

  /** No name is recorded twice for the same reference. */
  ghost predicate DistinctPairs(images: seq<Image>) {
    forall i, j :: 0 <= i < j < |images| ==> !SamePair(images[i], images[j])
  }

  lemma DistinctKeysDistinctPairs(images: seq<Image>)
    requires DistinctKeys(images)
    ensures DistinctPairs(images)
  {
    forall i, j | 0 <= i < j < |images| ensures !SamePair(images[i], images[j]) {
      assert KeyOf(images[i]) != KeyOf(images[j]);
    }
  }

  /** The joined key identifies the pair among these entries. */
  ghost predicate CollisionFree(entries: seq<Image>) {
    forall a, b :: a in entries && b in entries && KeyOf(a) == KeyOf(b) ==> SamePair(a, b)
  }

  ghost predicate Covers(images: seq<Image>, e: Image) { exists r :: r in images && SamePair(r, e) }

  /** Every (name, reference) pair of the environment is recorded exactly when the joined keys
      do not collide. */
  lemma RecordsAllIff(entries: seq<Image>)
    ensures (forall e :: e in entries ==> Covers(Recorded([], entries), e)) <==> CollisionFree(entries)
  {
    var all := Recorded([], entries);
    RecordedKeys([], entries);
    RecordedElements([], entries);
    if forall e :: e in entries ==> Covers(all, e) {
      forall a, b | a in entries && b in entries && KeyOf(a) == KeyOf(b) ensures SamePair(a, b) {
        var r :| r in all && SamePair(r, a);
        var t :| t in all && SamePair(t, b);
        assert KeyOf(r) == KeyOf(t);
      }
    }
    if CollisionFree(entries) {
      forall e | e in entries ensures Covers(all, e) {
        assert KeyOf(e) in Keys(entries);
        var r :| r in all && KeyOf(r) == KeyOf(e);
      }
    }
  }

  /** Two different pairs with the same key: the second image is never listed at all. */
  lemma CollisionLosesImage()
    ensures var a := Image("a-b", "c", "d"); var b := Image("a", "b-c", "d");
            KeyOf(a) == KeyOf(b) && Recorded([], [a, b]) == [a] && ListedOf([a], [a]) == [RelatedImage("a-b", "c")]
  {
    var a := Image("a-b", "c", "d");
    var b := Image("a", "b-c", "d");
    assert KeyOf(a) == "a-b-c" == KeyOf(b);
    assert [a, b][1..] == [b] && [b][1..] == [] && [a][1..] == [];
    assert Add([], a) == [] + [a] == [a];
    assert Recorded([], [a, b]) == Recorded([a], [b]);
    assert Recorded([a], [b]) == Recorded(Add([a], b), []);
    assert a in [a] && KeyOf(b) in Keys([a]);
    assert WithRef([a], "c") == [a] && Named([a], "a-b") == [a];
  }

  // ---- what is listed ----

  /** Distinct elements in the order of their first occurrence. */
  function FirstOccurrences(refs: seq<string>, before: set<string>): seq<string>
    decreases refs
  {
    if refs == [] then []
    else if refs[0] in before then FirstOccurrences(refs[1..], before)
    else [refs[0]] + FirstOccurrences(refs[1..], before + {refs[0]})
  }

  lemma {:induction false} FirstOccurrencesAreDistinct(refs: seq<string>, before: set<string>)
    ensures NoDuplicates(FirstOccurrences(refs, before))
    ensures forall r :: r in FirstOccurrences(refs, before) <==> r in refs && r !in before
    decreases refs
  {
    if refs != [] {
      assert refs == [refs[0]] + refs[1..];
      if refs[0] in before {
        FirstOccurrencesAreDistinct(refs[1..], before);
      } else {
        FirstOccurrencesAreDistinct(refs[1..], before + {refs[0]});
      }
    }
  }

  function Refs(images: seq<Image>): seq<string> {
    seq(|images|, i requires 0 <= i < |images| => images[i].ref)
  }

  function ListedRefs(listed: seq<RelatedImage>): seq<string> {
    seq(|listed|, i requires 0 <= i < |listed| => listed[i].image)
  }

  lemma RecordedBefore(done: seq<Image>, ref: string)
    ensures ref in Refs(done) <==> WithRef(done, ref) != []
  {
    WithRefIsFilter(done, ref);
    var before := WithRef(done, ref);
    if ref in Refs(done) {
      var i :| 0 <= i < |done| && Refs(done)[i] == ref;
      assert done[i] in before;
    }
    if before != [] {
      assert before[0] in before;
      var j :| 0 <= j < |done| && done[j] == before[0];
      assert Refs(done)[j] == ref;
    }
  }

  /** An image is left out exactly when its reference was already listed. */
  lemma ListedIff(done: seq<Image>, im: Image, rest: seq<Image>)
    requires DistinctPairs((done + [im]) + rest)
    ensures Listed((done + [im]) + rest, im).Some? <==> im.ref !in Refs(done)
    ensures Listed((done + [im]) + rest, im).Some? ==> Listed((done + [im]) + rest, im).value.image == im.ref
  {
    var all := (done + [im]) + rest;
    WithRefAfter(done + [im], rest, im.ref);
    WithRefAfter(done, [im], im.ref);
    WithRefIsFilter(done, im.ref);
    RecordedBefore(done, im.ref);
    var before := WithRef(done, im.ref);
    assert WithRef(all, im.ref) == before + [im] + WithRef(rest, im.ref);
    if before != [] {
      assert before[0] in before;
      var j :| 0 <= j < |done| && done[j] == before[0];
      assert !SamePair(all[j], all[|done|]);
    }
  }

  lemma ListedRefsOfCons(r: RelatedImage, more: seq<RelatedImage>)
    ensures ListedRefs([r] + more) == [r.image] + ListedRefs(more)
  {
  }

  lemma RefsOfSum(done: seq<Image>, im: Image)
    ensures Refs(done + [im]) == Refs(done) + [im.ref]
    ensures Elements(Refs(done + [im])) == Elements(Refs(done)) + {im.ref}
  {
    assert Refs(done + [im]) == Refs(done) + [im.ref];
  }

  lemma RefsOfTail(rest: seq<Image>)
    requires rest != []
    ensures Refs(rest)[0] == rest[0].ref && Refs(rest)[1..] == Refs(rest[1..])
  {
  }

  lemma {:induction false} ListedRefsFrom(all: seq<Image>, done: seq<Image>, rest: seq<Image>)
    requires all == done + rest && DistinctPairs(all)
    ensures ListedRefs(ListedOf(all, rest)) == FirstOccurrences(Refs(rest), Elements(Refs(done)))
    decreases rest
  {
    if rest != [] {
      var im := rest[0];
      HeadOf(done, rest);
      ListedIff(done, im, rest[1..]);
      ListedRefsFrom(all, done + [im], rest[1..]);
      RefsOfTail(rest);
      RefsOfSum(done, im);
      var l := Listed(all, im);
      var more := ListedOf(all, rest[1..]);
      if l.Some? {
        ListedRefsOfCons(l.value, more);
      } else {
        assert [] + more == more;
        assert Elements(Refs(done)) + {im.ref} == Elements(Refs(done));
      }
    }
  }

  /** The list has each recorded reference exactly once, in the order of first occurrence. */
  lemma ListsEachReferenceOnce(images: seq<Image>)
    requires DistinctKeys(images)
    ensures ListedRefs(ListedOf(images, images)) == FirstOccurrences(Refs(images), {})
    ensures NoDuplicates(ListedRefs(ListedOf(images, images)))
    ensures Elements(ListedRefs(ListedOf(images, images))) == Elements(Refs(images))
  {
    DistinctKeysDistinctPairs(images);
    assert [] + images == images;
    ListedRefsFrom(images, [], images);
    assert Elements(Refs([])) == {};
    FirstOccurrencesAreDistinct(Refs(images), {});
  }

  /** A reference that goes by different names. */
  ghost predicate SeveralNames(images: seq<Image>, ref: string) {
    exists a, b :: a in images && b in images && a.ref == ref && b.ref == ref && a.name != b.name
  }

  /** A name that stands for different references. */
  ghost predicate SharedName(images: seq<Image>, name: string) {
    exists a, b :: a in images && b in images && a.name == name && b.name == name && a.ref != b.ref
  }

  lemma {:induction false} WithRefIsLong(images: seq<Image>, ref: string)
    requires DistinctPairs(images)
    ensures |WithRef(images, ref)| > 1 <==> SeveralNames(images, ref)
  {
    var found := WithRef(images, ref);
    WithRefIsFilter(images, ref);
    if |found| > 1 {
      FilterIsDistinct(images, ref, "");
      assert found[0] in found && found[1] in found;
    }
    if SeveralNames(images, ref) {
      var a, b :| a in images && b in images && a.ref == ref && b.ref == ref && a.name != b.name;
      assert a in found && b in found;
    }
  }

  lemma {:induction false} NamedIsLong(images: seq<Image>, name: string)
    requires DistinctPairs(images)
    ensures |Named(images, name)| > 1 <==> SharedName(images, name)
  {
    var found := Named(images, name);
    NamedIsFilter(images, name);
    if |found| > 1 {
      FilterIsDistinct(images, "", name);
      assert found[0] in found && found[1] in found;
    }
    if SharedName(images, name) {
      var a, b :| a in images && b in images && a.name == name && b.name == name && a.ref != b.ref;
      assert a in found && b in found;
    }
  }

  lemma {:induction false} FilterIsDistinct(images: seq<Image>, ref: string, name: string)
    requires DistinctPairs(images)
    ensures DistinctPairs(WithRef(images, ref)) && DistinctPairs(Named(images, name))
  {
    if images != [] {
      FilterIsDistinct(images[1..], ref, name);
      WithRefIsFilter(images[1..], ref);
      NamedIsFilter(images[1..], name);
      forall x | x in images[1..] ensures !SamePair(images[0], x) {
        var j :| 0 <= j < |images[1..]| && images[1..][j] == x;
        assert !SamePair(images[0], images[j + 1]);
      }
    }
  }

  /** The name listed: empty for a reference that goes by several names, qualified by the
      container for a name that stands for several references, and otherwise the recorded one. */
  lemma ListedName(images: seq<Image>, im: Image)
    requires DistinctKeys(images) && im in images && Listed(images, im).Some?
    ensures Listed(images, im).value.name
            == if SeveralNames(images, im.ref) then ""
               else if SharedName(images, im.name) then im.container + "-" + im.name
               else im.name
    ensures Listed(images, im).value.name == ""
            <==> SeveralNames(images, im.ref) || (im.name == "" && !SharedName(images, ""))
  {
    DistinctKeysDistinctPairs(images);
    WithRefIsLong(images, im.ref);
    NamedIsLong(images, im.name);
    assert |im.container + "-" + im.name| > 0;
  }

  /** The search as a whole. It fails exactly when a variable is unsupported; otherwise it lists
      references of the environment only, each once, and all of them if no keys collide. */
  lemma FoundImages(ds: seq<Deployment>)
    ensures Collected([], AllVars(ds)).1 <==> forall v :: v in AllVars(ds) ==> !Unsupported(v)
    ensures var (all, ok) := Collected([], AllVars(ds)); var es := Entries(AllVars(ds));
            ok ==>
              && NoDuplicates(ListedRefs(ListedOf(all, all)))
              && Elements(ListedRefs(ListedOf(all, all))) <= Elements(Refs(es))
              && (CollisionFree(es) ==> Elements(ListedRefs(ListedOf(all, all))) == Elements(Refs(es)))
  {
    var es := Entries(AllVars(ds));
    var all := Recorded([], es);
    CollectedRecordsEntries([], AllVars(ds));
    RecordedKeys([], es);
    RecordedElements([], es);
    ListsEachReferenceOnce(all);
    RefsAreCovered(all, es);
    RecordsAllIff(es);
  }

  lemma RefsAreCovered(all: seq<Image>, es: seq<Image>)
    ensures (forall im :: im in all ==> im in es) ==> Elements(Refs(all)) <= Elements(Refs(es))
    ensures (forall e :: e in es ==> Covers(all, e)) ==> Elements(Refs(es)) <= Elements(Refs(all))
  {
    if forall im :: im in all ==> im in es {
      forall r | r in Elements(Refs(all)) ensures r in Elements(Refs(es)) {
        var i :| 0 <= i < |all| && Refs(all)[i] == r;
        assert all[i] in all;
        var j :| 0 <= j < |es| && es[j] == all[i];
        assert Refs(es)[j] == r;
      }
    }
    if forall e :: e in es ==> Covers(all, e) {
      forall r | r in Elements(Refs(es)) ensures r in Elements(Refs(all)) {
        var i :| 0 <= i < |es| && Refs(es)[i] == r;
        assert es[i] in es;
        var im :| im in all && SamePair(im, es[i]);
        var j :| 0 <= j < |all| && all[j] == im;
        assert Refs(all)[j] == r;
      }
    }
  }

  // ---- which variables count, and as what ----

  predicate NamesImage(v: Var) { "RELATED_IMAGE_" <= v.env.name }

  /** The name of an image: that of the variable without the prefix, in lower case and with dashes
      for underscores. */
  ghost predicate IsImageName(name: string, variable: string) {
    && |variable| >= 14 && |name| == |variable| - 14
    && forall i :: 0 <= i < |name| ==>
         name[i] == if variable[i + 14] == '_' then '-'
                    else if 'A' <= variable[i + 14] <= 'Z' then (variable[i + 14] as int + 32) as char
                    else variable[i + 14]
  }

  lemma FormatNameIs(variable: string)
    requires HasPrefix(variable, PREFIX)
    ensures IsImageName(FormatName(variable), variable)
  {
    var rest := variable[|PREFIX|..];
    assert forall i :: 0 <= i < |rest| ==> rest[i] == variable[i + 14];
  }

  /** The variables of a container, each under the name of its deployment, and of the container
      too if the deployment has several. */
  ghost predicate IsVarOf(v: Var, ds: seq<Deployment>) {
    exists d, c :: d in ds && c in d.containers + d.initContainers && v.env in c.env
                   && v.container == if |d.containers + d.initContainers| > 1 then d.name + "-" + c.name else d.name
  }

  lemma {:induction false} ContainerVarsMember(deployment: string, count: nat, cs: seq<Container>, v: Var)
    ensures v in ContainerVars(deployment, count, cs)
       <==> exists c :: c in cs && v.env in c.env
                        && v.container == if count > 1 then deployment + "-" + c.name else deployment
  {
    if cs != [] {
      var c := cs[0];
      assert cs == [c] + cs[1..];
      ContainerVarsMember(deployment, count, cs[1..], v);
      assert deployment + ("-" + c.name) == deployment + "-" + c.name;
      VarsOfMember(ContainerRef(deployment, count, c.name), c.env, v);
    }
  }

  lemma VarsOfMember(container: string, env: seq<EnvVar>, v: Var)
    ensures v in VarsOf(container, env) <==> v.container == container && v.env in env
  {
    if v.container == container && v.env in env {
      var i :| 0 <= i < |env| && env[i] == v.env;
      assert VarsOf(container, env)[i] == v;
    }
  }

  lemma {:induction false} AllVarsMember(ds: seq<Deployment>, v: Var)
    ensures v in AllVars(ds) <==> IsVarOf(v, ds)
  {
    if ds != [] {
      var d := ds[0];
      var cs := d.containers + d.initContainers;
      assert ds == [d] + ds[1..];
      AllVarsMember(ds[1..], v);
      ContainerVarsMember(d.name, |cs|, cs, v);
    }
  }

  lemma {:induction false} EntriesMember(vars: seq<Var>, im: Image)
    ensures im in Entries(vars)
       <==> exists v :: v in vars && NamesImage(v) && im == ImageOf(v)
  {
    if vars != [] {
      assert vars == [vars[0]] + vars[1..];
      EntriesMember(vars[1..], im);
    }
  }

  /** The search fails exactly if a variable that names an image takes its value from elsewhere;
      what it lists otherwise are references of such variables, and if joined keys do not collide
      all of them. */
  lemma {:induction false} ListedReferences(ds: seq<Deployment>, ref: string)
    ensures var (all, ok) := Collected([], AllVars(ds));
            && (!ok <==> exists v :: IsVarOf(v, ds) && NamesImage(v) && v.env.hasValueFrom)
            && (ok && (exists r :: r in ListedOf(all, all) && r.image == ref) ==>
                  exists v :: IsVarOf(v, ds) && NamesImage(v) && v.env.value == ref)
            && (ok && CollisionFree(Entries(AllVars(ds)))
                && (exists v :: IsVarOf(v, ds) && NamesImage(v) && v.env.value == ref) ==>
                  exists r :: r in ListedOf(all, all) && r.image == ref)
  {
    var vars := AllVars(ds);
    var (all, ok) := Collected([], vars);
    CollectedRecordsEntries([], vars);
    forall v ensures v in vars <==> IsVarOf(v, ds) { AllVarsMember(ds, v); }
    if ok {
      RecordedElements([], Entries(vars));
      RecordsAllIff(Entries(vars));
      RecordedKeys([], Entries(vars));
      ReferenceListedIff(all, ref);
      if r :| r in ListedOf(all, all) && r.image == ref {
        var im :| im in all && im.ref == ref;
        EntriesMember(vars, im);
      }
      if v :| IsVarOf(v, ds) && NamesImage(v) && v.env.value == ref {
        EntriesMember(vars, ImageOf(v));
        assert CollisionFree(Entries(vars)) ==> Covers(all, ImageOf(v));
      }
    }
  }

  lemma {:induction false} ReferenceListedIff(images: seq<Image>, ref: string)
    requires DistinctKeys(images)
    ensures (exists r :: r in ListedOf(images, images) && r.image == ref)
       <==> exists im :: im in images && im.ref == ref
  {
    var listed := ListedOf(images, images);
    ListsEachReferenceOnce(images);
    assert ref in Elements(ListedRefs(listed)) <==> ref in Elements(Refs(images));
    if r :| r in listed && r.image == ref {
      var i :| 0 <= i < |listed| && listed[i] == r;
      assert ListedRefs(listed)[i] == ref;
      var j :| 0 <= j < |images| && Refs(images)[j] == ref;
      assert images[j] in images;
    }
    if im :| im in images && im.ref == ref {
      var j :| 0 <= j < |images| && images[j] == im;
      assert Refs(images)[j] == ref;
      var i :| 0 <= i < |listed| && ListedRefs(listed)[i] == ref;
      assert listed[i] in listed;
    }
  }
}
