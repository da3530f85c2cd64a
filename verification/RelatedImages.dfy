/** Collecting the images an operator uses from its environment, with two indexes kept beside
    the list. */
module RelatedImages {
  import opened Wrappers
  import opened Seqs
  import opened Text

  const PREFIX := "RELATED_IMAGE_"

  datatype EnvVar = EnvVar(name: string, value: string, hasValueFrom: bool)
  datatype Container = Container(name: string, env: seq<EnvVar>)
  datatype Deployment = Deployment(name: string, containers: seq<Container>, initContainers: seq<Container>)

  /** A recorded image: the name it goes by, its reference, and the container that uses it. */
  datatype Image = Image(name: string, ref: string, container: string)
  datatype RelatedImage = RelatedImage(name: string, image: string)

  /** What tells recorded images apart; two different pairs can have the same key. */
  function Key(name: string, ref: string): string { name + "-" + ref }

  function KeyOf(im: Image): string { Key(im.name, im.ref) }

  function FormatName(name: string): string
    requires HasPrefix(name, PREFIX)
  {
    ToLower(ReplaceChar(name[|PREFIX|..], '_', '-'))
  }

  // ---- the two indexes, as filters of the list ----

  function Named(images: seq<Image>, name: string): seq<Image> {
    if images == [] then []
    else (if images[0].name == name then [images[0]] else []) + Named(images[1..], name)
  }

  function WithRef(images: seq<Image>, ref: string): seq<Image> {
    if images == [] then []
    else (if images[0].ref == ref then [images[0]] else []) + WithRef(images[1..], ref)
  }

  lemma {:induction false} NamedAfter(images: seq<Image>, more: seq<Image>, name: string)
    ensures Named(images + more, name) == Named(images, name) + Named(more, name)
  {
    if images == [] {
      assert images + more == more;
    } else {
      HeadOfSum(images, more);
      NamedAfter(images[1..], more, name);
      Assoc(if images[0].name == name then [images[0]] else [], Named(images[1..], name), Named(more, name));
    }
  }

  lemma {:induction false} WithRefAfter(images: seq<Image>, more: seq<Image>, ref: string)
    ensures WithRef(images + more, ref) == WithRef(images, ref) + WithRef(more, ref)
  {
    if images == [] {
      assert images + more == more;
    } else {
      HeadOfSum(images, more);
      WithRefAfter(images[1..], more, ref);
      Assoc(if images[0].ref == ref then [images[0]] else [], WithRef(images[1..], ref), WithRef(more, ref));
    }
  }

  lemma {:induction false} NamedIsFilter(images: seq<Image>, name: string)
    ensures forall im :: im in Named(images, name) <==> im in images && im.name == name
  {
    if images != [] {
      NamedIsFilter(images[1..], name);
      assert images == [images[0]] + images[1..];
    }
  }

  lemma {:induction false} WithRefIsFilter(images: seq<Image>, ref: string)
    ensures forall im :: im in WithRef(images, ref) <==> im in images && im.ref == ref
  {
    if images != [] {
      WithRefIsFilter(images[1..], ref);
      assert images == [images[0]] + images[1..];
    }
  }

  function Keys(images: seq<Image>): set<string> { set im | im in images :: KeyOf(im) }

  ghost predicate DistinctKeys(images: seq<Image>) {
    forall i, j :: 0 <= i < j < |images| ==> KeyOf(images[i]) != KeyOf(images[j])
  }

  ghost predicate IndexesByName(index: map<string, seq<Image>>, images: seq<Image>) {
    forall n :: (n in index <==> Named(images, n) != []) && (n in index ==> index[n] == Named(images, n))
  }

  ghost predicate IndexesByRef(index: map<string, seq<Image>>, images: seq<Image>) {
    forall r :: (r in index <==> WithRef(images, r) != []) && (r in index ==> index[r] == WithRef(images, r))
  }

  lemma IndexByNameAfter(index: map<string, seq<Image>>, images: seq<Image>, im: Image)
    requires IndexesByName(index, images)
    ensures IndexesByName(index[im.name := (if im.name in index then index[im.name] else []) + [im]], images + [im])
  {
    forall n ensures Named(images + [im], n) == Named(images, n) + if im.name == n then [im] else [] {
      NamedAfter(images, [im], n);
    }
  }

  lemma IndexByRefAfter(index: map<string, seq<Image>>, images: seq<Image>, im: Image)
    requires IndexesByRef(index, images)
    ensures IndexesByRef(index[im.ref := (if im.ref in index then index[im.ref] else []) + [im]], images + [im])
  {
    forall r ensures WithRef(images + [im], r) == WithRef(images, r) + if im.ref == r then [im] else [] {
      WithRefAfter(images, [im], r);
    }
  }

  // ---- what is recorded and what is listed ----

  function Add(images: seq<Image>, im: Image): seq<Image> {
    if KeyOf(im) in Keys(images) then images else images + [im]
  }

  function Recorded(images: seq<Image>, entries: seq<Image>): seq<Image>
    decreases entries
  {
    if entries == [] then images else Recorded(Add(images, entries[0]), entries[1..])
  }

  /** An environment variable together with the name of the container it belongs to. */
  datatype Var = Var(container: string, env: EnvVar)

  function ImageOf(v: Var): Image
    requires HasPrefix(v.env.name, PREFIX)
  {
    Image(FormatName(v.env.name), v.env.value, v.container)
  }

  predicate Unsupported(v: Var) { HasPrefix(v.env.name, PREFIX) && v.env.hasValueFrom }

  /** Collecting stops at the first variable that takes its value from elsewhere. */
  function Collected(images: seq<Image>, vars: seq<Var>): (seq<Image>, bool)
    decreases vars
  {
    if vars == [] then (images, true)
    else if !HasPrefix(vars[0].env.name, PREFIX) then Collected(images, vars[1..])
    else if vars[0].env.hasValueFrom then (images, false)
    else Collected(Add(images, ImageOf(vars[0])), vars[1..])
  }

  function VarsOf(container: string, env: seq<EnvVar>): seq<Var> {
    seq(|env|, i requires 0 <= i < |env| => Var(container, env[i]))
  }

  /** The image listed for a recorded one, given all that are recorded. */
  function Listed(all: seq<Image>, im: Image): Option<RelatedImage> {
    var sameRef := WithRef(all, im.ref);
    if |sameRef| > 1 then
      if sameRef[0].name != im.name then None else Some(RelatedImage("", im.ref))
    else if |Named(all, im.name)| > 1 then Some(RelatedImage(im.container + "-" + im.name, im.ref))
    else Some(RelatedImage(im.name, im.ref))
  }

  function ListedOf(all: seq<Image>, images: seq<Image>): seq<RelatedImage> {
    if images == [] then []
    else (match Listed(all, images[0]) case Some(r) => [r] case None => []) + ListedOf(all, images[1..])
  }

  class RelatedImageCollector {
    var images: seq<Image>
    var byName: map<string, seq<Image>>
    var byRef: map<string, seq<Image>>
    var seen: set<string>

    ghost predicate Valid()
      reads this
    {
      && IndexesByName(byName, images)
      && IndexesByRef(byRef, images)
      && seen == Keys(images)
      && DistinctKeys(images)
    }

    constructor ()
      ensures Valid() && images == []
    {
      images, byName, byRef, seen := [], map[], map[], {};
    }

    method Collect(name: string, ref: string, container: string)
      requires Valid()
      modifies this
      ensures Valid() && images == Add(old(images), Image(name, ref, container))
    {
      var key := name + "-" + ref;
      assert key == KeyOf(Image(name, ref, container));
      if key in seen { return; }
      seen := seen + {key};
      var im := Image(name, ref, container);
      IndexByNameAfter(byName, images, im);
      IndexByRefAfter(byRef, images, im);
      KeysAfter(images, im);
      images := images + [im];
      if name in byName {
        byName := byName[name := byName[name] + [im]];
      } else {
        byName := byName[name := [im]];
      }
      if ref in byRef {
        byRef := byRef[ref := byRef[ref] + [im]];
      } else {
        byRef := byRef[ref := [im]];
      }
    }

    method CollectFromEnvironment(container: string, env: seq<EnvVar>) returns (ok: bool)
      requires Valid()
      modifies this
      ensures Valid() && (images, ok) == Collected(old(images), VarsOf(container, env))
    {
      ghost var rest := VarsOf(container, env);
      for i := 0 to |env|
        invariant Valid() && rest == VarsOf(container, env)[i..]
        invariant Collected(images, rest) == Collected(old(images), VarsOf(container, env))
      {
        if HasPrefix(env[i].name, PREFIX) {
          if env[i].hasValueFrom { return false; }
          Collect(FormatName(env[i].name), env[i].value, container);
        }
        rest := rest[1..];
      }
      ok := true;
    }

    method CollectedRelatedImages() returns (listed: seq<RelatedImage>)
      requires Valid()
      ensures listed == ListedOf(images, images)
    {
      listed := [];
      ghost var rest := images;
      for i := 0 to |images|
        invariant rest == images[i..] && listed + ListedOf(images, rest) == ListedOf(images, images)
      {
        var im := images[i];
        NamedIsFilter(images, im.name);
        WithRefIsFilter(images, im.ref);
        assert im in images;
        var name := im.name;
        if |byName[im.name]| > 1 {
          name := im.container + "-" + name;
        }
        var add := true;
        var sameRef := byRef[im.ref];
        if |sameRef| > 1 {
          if sameRef[0].name != im.name { add := false; }
          name := "";
        }
        assert Listed(images, im) == if add then Some(RelatedImage(name, im.ref)) else None;
        Assoc(listed, [RelatedImage(name, im.ref)], ListedOf(images, rest[1..]));
        if add {
          listed := listed + [RelatedImage(name, im.ref)];
        }
        rest := rest[1..];
      }
    }
  }

  lemma KeysAfter(images: seq<Image>, im: Image)
    ensures Keys(images + [im]) == Keys(images) + {KeyOf(im)}
    ensures DistinctKeys(images) && KeyOf(im) !in Keys(images) ==> DistinctKeys(images + [im])
  {
    assert forall x :: x in images + [im] <==> x in images || x == im;
    forall k | k in Keys(images) + {KeyOf(im)} ensures k in Keys(images + [im]) {
      if k in Keys(images) {
        var x :| x in images && KeyOf(x) == k;
        assert x in images + [im];
      } else {
        assert im in images + [im];
      }
    }
  }

  // ---- the whole search ----

  function ContainerRef(deployment: string, count: nat, container: string): string {
    if count > 1 then deployment + ("-" + container) else deployment
  }

  function ContainerVars(deployment: string, count: nat, cs: seq<Container>): seq<Var> {
    if cs == [] then []
    else VarsOf(ContainerRef(deployment, count, cs[0].name), cs[0].env) + ContainerVars(deployment, count, cs[1..])
  }

  function DeploymentVars(d: Deployment): seq<Var> {
    var cs := d.containers + d.initContainers;
    ContainerVars(d.name, |cs|, cs)
  }

  /** Every variable of every container of the deployments, in order. */
  function AllVars(ds: seq<Deployment>): seq<Var> {
    if ds == [] then [] else DeploymentVars(ds[0]) + AllVars(ds[1..])
  }

  lemma {:induction false} CollectedOfSum(images: seq<Image>, a: seq<Var>, b: seq<Var>)
    ensures Collected(images, a + b)
            == if Collected(images, a).1 then Collected(Collected(images, a).0, b) else Collected(images, a)
    decreases a
  {
    if a == [] {
      assert a + b == b;
    } else {
      assert (a + b)[1..] == a[1..] + b;
      if !HasPrefix(a[0].env.name, PREFIX) {
        CollectedOfSum(images, a[1..], b);
      } else if !a[0].env.hasValueFrom {
        CollectedOfSum(Add(images, ImageOf(a[0])), a[1..], b);
      }
    }
  }

  /** What collecting from these containers of a deployment gives. */
  function FromContainers(images: seq<Image>, deployment: string, count: nat, cs: seq<Container>): (seq<Image>, bool) {
    Collected(images, ContainerVars(deployment, count, cs))
  }

  lemma FromFirstContainer(images: seq<Image>, deployment: string, count: nat, cs: seq<Container>)
    requires cs != []
    ensures var first := Collected(images, VarsOf(ContainerRef(deployment, count, cs[0].name), cs[0].env));
            FromContainers(images, deployment, count, cs)
            == if first.1 then FromContainers(first.0, deployment, count, cs[1..]) else first
  {
    CollectedOfSum(images, VarsOf(ContainerRef(deployment, count, cs[0].name), cs[0].env),
                   ContainerVars(deployment, count, cs[1..]));
  }

  method CollectFromContainers(col: RelatedImageCollector, d: Deployment) returns (ok: bool)
    requires col.Valid()
    modifies col
    ensures col.Valid() && (col.images, ok) == Collected(old(col.images), DeploymentVars(d))
  {
    var cs := d.containers + d.initContainers;
    ghost var rest := cs;
    for i := 0 to |cs|
      invariant col.Valid() && rest == cs[i..]
      invariant FromContainers(col.images, d.name, |cs|, rest) == FromContainers(old(col.images), d.name, |cs|, cs)
    {
      var ref := d.name;
      if |cs| > 1 { ref := ref + ("-" + cs[i].name); }
      FromFirstContainer(col.images, d.name, |cs|, rest);
      ok := col.CollectFromEnvironment(ref, cs[i].env);
      if !ok { return; }
      rest := rest[1..];
    }
    ok := true;
  }

  method FindRelatedImages(ds: seq<Deployment>) returns (r: Option<seq<RelatedImage>>)
    ensures r == var (all, ok) := Collected([], AllVars(ds)); if ok then Some(ListedOf(all, all)) else None
  {
    var col := new RelatedImageCollector();
    ghost var rest := ds;
    for i := 0 to |ds|
      invariant col.Valid() && fresh(col) && rest == ds[i..]
      invariant Collected(col.images, AllVars(rest)) == Collected([], AllVars(ds))
    {
      CollectedOfSum(col.images, DeploymentVars(ds[i]), AllVars(rest[1..]));
      var ok := CollectFromContainers(col, ds[i]);
      if !ok { return None; }
      rest := rest[1..];
    }
    var listed := col.CollectedRelatedImages();
    return Some(listed);
  }
}
