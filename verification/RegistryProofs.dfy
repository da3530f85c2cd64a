/** When the registry on the cluster counts as up to date. */
module RegistryProofs {
  import opened Wrappers
  import opened Seqs
  import opened Text
  import opened RegistryData

  // ---- what is stored, what is desired ----

  lemma {:induction false} StoredNames(cms: seq<ConfigMap>)
    requires DistinctNames(cms)
    ensures forall n :: n in Stored(cms) <==> exists i :: 0 <= i < |cms| && cms[i].name == n
    ensures |Stored(cms).Keys| == |cms|
  {
    if cms != [] {
      var init, last := cms[..|cms| - 1], cms[|cms| - 1];
      StoredNames(init);
      assert forall i :: 0 <= i < |init| ==> init[i] == cms[i];
      assert last.name !in Stored(init);
      assert Stored(cms).Keys == Stored(init).Keys + {last.name};
    }
  }

  lemma {:induction false} StoredHas(cms: seq<ConfigMap>, i: nat)
    requires DistinctNames(cms) && i < |cms|
    ensures cms[i].name in Stored(cms) && Stored(cms)[cms[i].name] == cms[i].data
  {
    if i < |cms| - 1 {
      StoredHas(cms[..|cms| - 1], i);
      assert cms[i].name != cms[|cms| - 1].name;
    }
  }

  /** The names of the ConfigMaps asked for, the one of the package first. */
  function Names(p: Package, bundles: seq<Bundle>): seq<string> {
    [PackageMapName(p)] + BundleNames(p, bundles)
  }

  function BundleNames(p: Package, bundles: seq<Bundle>): seq<string> {
    seq(|bundles|, i requires 0 <= i < |bundles| => BundleMapName(p, bundles[i]))
  }

  lemma {:induction false} AddBundlesNames(hash: Bytes -> string, p: Package, maps: map<string, Data>,
                                           bundles: seq<Bundle>)
    requires AddBundles(hash, p, maps, bundles).Ok?
    ensures AddBundles(hash, p, maps, bundles).value.Keys == maps.Keys + Elements(BundleNames(p, bundles))
    decreases bundles
  {
    if bundles != [] {
      var data := AddObjects(hash, map[], bundles[0].objects).value;
      AddBundlesNames(hash, p, maps[BundleMapName(p, bundles[0]) := data], bundles[1..]);
      assert BundleNames(p, bundles) == [BundleMapName(p, bundles[0])] + BundleNames(p, bundles[1..]);
    }
  }

  lemma DesiredNames(hash: Bytes -> string, p: Package, bundles: seq<Bundle>)
    requires Desired(hash, p, bundles).Ok?
    ensures Desired(hash, p, bundles).value.Keys == Elements(Names(p, bundles))
  {
    var b := p.yaml.value;
    AddBundlesNames(hash, p, map[PackageMapName(p) := map[FileName(hash, b, []) := b]], bundles);
  }

  /** Every file key starts with the hash of the contents. */
  ghost predicate WellKeyed(hash: Bytes -> string, data: Data) {
    forall k :: k in data ==> hash(data[k]) + "." <= k
  }

  lemma {:induction false} AddObjectsWellKeyed(hash: Bytes -> string, data: Data, objects: seq<Object>)
    requires WellKeyed(hash, data) && AddObjects(hash, data, objects).Some?
    ensures WellKeyed(hash, AddObjects(hash, data, objects).value)
    decreases objects
  {
    if objects != [] {
      var b := objects[0].yaml.value;
      AddObjectsWellKeyed(hash, data[FileName(hash, b, [objects[0].name, objects[0].kind]) := b], objects[1..]);
    }
  }

  lemma {:induction false} AddBundlesWellKeyed(hash: Bytes -> string, p: Package, maps: map<string, Data>,
                                               bundles: seq<Bundle>)
    requires AddBundles(hash, p, maps, bundles).Ok? && forall n :: n in maps ==> WellKeyed(hash, maps[n])
    ensures forall n :: n in AddBundles(hash, p, maps, bundles).value ==>
              WellKeyed(hash, AddBundles(hash, p, maps, bundles).value[n])
    decreases bundles
  {
    if bundles != [] {
      AddObjectsWellKeyed(hash, map[], bundles[0].objects);
      var data := AddObjects(hash, map[], bundles[0].objects).value;
      AddBundlesWellKeyed(hash, p, maps[BundleMapName(p, bundles[0]) := data], bundles[1..]);
    }
  }

  /** Everything the registry is made of is keyed by its hash. */
  lemma DesiredWellKeyed(hash: Bytes -> string, p: Package, bundles: seq<Bundle>)
    requires Desired(hash, p, bundles).Ok?
    ensures forall n :: n in Desired(hash, p, bundles).value ==> WellKeyed(hash, Desired(hash, p, bundles).value[n])
  {
    var b := p.yaml.value;
    var data: Data := map[FileName(hash, b, []) := b];
    assert WellKeyed(hash, data);
    AddBundlesWellKeyed(hash, p, map[PackageMapName(p) := data], bundles);
  }

  // ---- staleness is exact ----

  ghost predicate SameKeys(stored: map<string, Data>, desired: map<string, Data>) {
    stored.Keys == desired.Keys && forall n :: n in desired ==> stored[n].Keys == desired[n].Keys
  }

  ghost predicate Matches(cm: ConfigMap, desired: map<string, Data>) {
    cm.name in desired && desired[cm.name].Keys == cm.data.Keys
  }

  lemma {:induction false} NotStaleFromIff(cms: seq<ConfigMap>, desired: map<string, Data>)
    requires DistinctNames(cms)
    ensures !StaleFrom(cms, desired) <==> forall cm :: cm in cms ==> Matches(cm, desired)
    decreases cms
  {
    if cms != [] {
      var after := desired[cms[0].name := map[]];
      NotStaleFromIff(cms[1..], after);
      assert cms == [cms[0]] + cms[1..];
      assert cms[0] in cms;
      forall cm | cm in cms[1..] ensures Matches(cm, after) <==> Matches(cm, desired) {
        var j :| 0 <= j < |cms[1..]| && cms[1..][j] == cm;
        assert cms[0].name != cms[j + 1].name;
      }
    }
  }

  lemma AllMatchIff(cms: seq<ConfigMap>, desired: map<string, Data>)
    requires DistinctNames(cms)
    ensures (forall cm :: cm in cms ==> Matches(cm, desired)) <==>
            Stored(cms).Keys <= desired.Keys && forall n :: n in Stored(cms) ==> Stored(cms)[n].Keys == desired[n].Keys
  {
    StoredNames(cms);
    if forall cm :: cm in cms ==> Matches(cm, desired) {
      forall n | n in Stored(cms) ensures n in desired && Stored(cms)[n].Keys == desired[n].Keys {
        var i :| 0 <= i < |cms| && cms[i].name == n;
        StoredHas(cms, i);
        assert Matches(cms[i], desired);
      }
    }
    if Stored(cms).Keys <= desired.Keys && forall n :: n in Stored(cms) ==> Stored(cms)[n].Keys == desired[n].Keys {
      forall cm | cm in cms ensures Matches(cm, desired) {
        var i :| 0 <= i < |cms| && cms[i] == cm;
        StoredHas(cms, i);
      }
    }
  }

  /** The registry is up to date exactly when no two ConfigMaps are asked for under one name
      and the cluster has the same ConfigMaps with the same file keys. */
  lemma {:induction false} NotStaleIff(hash: Bytes -> string, cms: seq<ConfigMap>, p: Package, bundles: seq<Bundle>)
    requires DistinctNames(cms) && Desired(hash, p, bundles).Ok?
    ensures var desired := Desired(hash, p, bundles).value;
            !Stale(cms, bundles, desired) <==> NoDuplicates(Names(p, bundles)) && SameKeys(Stored(cms), desired)
  {
    var desired := Desired(hash, p, bundles).value;
    NotStaleFromIff(cms, desired);
    AllMatchIff(cms, desired);
    StoredNames(cms);
    DesiredNames(hash, p, bundles);
    ElementCount(Names(p, bundles));
    if !Stale(cms, bundles, desired) {
      SubsetIsSmaller(Stored(cms).Keys, desired.Keys);
      SubsetOfSameSize(Stored(cms).Keys, desired.Keys);
    }
  }

  predicate DotFree(hash: Bytes -> string, b: Bytes) { '.' !in hash(b) }

  /** The hash tells the contents of these two files apart, and has no dot. */
  ghost predicate TellsApart(hash: Bytes -> string, a: Data, b: Data) {
    forall k :: k in a && k in b ==>
      DotFree(hash, a[k]) && DotFree(hash, b[k]) && (hash(a[k]) == hash(b[k]) ==> a[k] == b[k])
  }

  lemma KeyGivesHash(h1: string, h2: string, k: string)
    requires '.' !in h1 && '.' !in h2 && h1 + "." <= k && h2 + "." <= k
    ensures h1 == h2
  {
    assert k[|h1|] == (h1 + ".")[|h1|] == '.' && k[|h2|] == (h2 + ".")[|h2|] == '.';
    assert forall i :: 0 <= i < |h1| ==> (h1 + ".")[i] == k[i] == h1[i];
    assert forall i :: 0 <= i < |h2| ==> (h2 + ".")[i] == k[i] == h2[i];
    assert |h1| == |h2|;
  }

  /** The same keys mean the same contents. */
  lemma SameKeysSameContents(hash: Bytes -> string, a: Data, b: Data)
    requires WellKeyed(hash, a) && WellKeyed(hash, b) && TellsApart(hash, a, b) && a.Keys == b.Keys
    ensures a == b
  {
    forall k | k in a ensures a[k] == b[k] {
      assert DotFree(hash, a[k]) && DotFree(hash, b[k]);
      KeyGivesHash(hash(a[k]), hash(b[k]), k);
    }
  }

  /** For ConfigMaps keyed by hash, under a hash that tells the contents apart: the registry is
      up to date exactly when no names collide and it stores exactly what is desired. */
  lemma NotStaleMeansSameContents(hash: Bytes -> string, cms: seq<ConfigMap>, p: Package, bundles: seq<Bundle>)
    requires DistinctNames(cms) && Desired(hash, p, bundles).Ok?
    requires forall n :: n in Stored(cms) ==> WellKeyed(hash, Stored(cms)[n])
    requires forall n :: n in Stored(cms) && n in Desired(hash, p, bundles).value ==>
               TellsApart(hash, Stored(cms)[n], Desired(hash, p, bundles).value[n])
    ensures var desired := Desired(hash, p, bundles).value;
            !Stale(cms, bundles, desired) <==> NoDuplicates(Names(p, bundles)) && Stored(cms) == desired
  {
    var desired := Desired(hash, p, bundles).value;
    NotStaleIff(hash, cms, p, bundles);
    DesiredWellKeyed(hash, p, bundles);
    if SameKeys(Stored(cms), desired) {
      forall n | n in desired ensures Stored(cms)[n] == desired[n] {
        SameKeysSameContents(hash, Stored(cms)[n], desired[n]);
      }
    }
  }

  /** A registry just created holds what is desired, and yet is up to date only if no two
      ConfigMaps were asked for under one name. */
  lemma {:induction false} FreshRegistryIff(hash: Bytes -> string, cms: seq<ConfigMap>, p: Package,
                                            bundles: seq<Bundle>)
    requires DistinctNames(cms) && Desired(hash, p, bundles).Ok? && Stored(cms) == Desired(hash, p, bundles).value
    ensures !Stale(cms, bundles, Desired(hash, p, bundles).value) <==> NoDuplicates(Names(p, bundles))
  {
    NotStaleIff(hash, cms, p, bundles);
  }

  function Labels(bundles: seq<Bundle>): seq<string> {
    ["package"] + seq(|bundles|, i requires 0 <= i < |bundles| => FormatOperatorName(bundles[i].version))
  }

  /** Names collide exactly when two versions look the same in a name or one looks like the
      name of the package's own ConfigMap. */
  lemma NamesDistinctIff(p: Package, bundles: seq<Bundle>)
    ensures NoDuplicates(Names(p, bundles)) <==> NoDuplicates(Labels(bundles))
  {
    var prefix := RegistryConfigMapName(p.name);
    assert "-" + "package" == "-package";
    assert forall i :: 0 <= i <= |bundles| ==> Names(p, bundles)[i] == prefix + ("-" + Labels(bundles)[i]);
    PrefixKeepsDistinct(prefix, Labels(bundles), Names(p, bundles));
  }

  lemma PrefixKeepsDistinct(prefix: string, labels: seq<string>, names: seq<string>)
    requires |names| == |labels| && forall i :: 0 <= i < |names| ==> names[i] == prefix + ("-" + labels[i])
    ensures NoDuplicates(names) <==> NoDuplicates(labels)
  {
    forall i, j | 0 <= i < |names| && 0 <= j < |names| ensures names[i] == names[j] <==> labels[i] == labels[j] {
      SameSuffix(prefix, labels[i], labels[j]);
    }
  }

  lemma SameSuffix(prefix: string, a: string, b: string)
    ensures prefix + ("-" + a) == prefix + ("-" + b) <==> a == b
  {
    assert (prefix + ("-" + a))[|prefix| + 1..] == a;
    assert (prefix + ("-" + b))[|prefix| + 1..] == b;
  }

  lemma FormatPlus()
    ensures FormatOperatorName("1.0.0+a") == "1-0-0-a"
  {
    assert "1.0.0+a"[1] == '.';
    assert DashRuns("a", true) == "a";
    assert DashRuns("+a", false) == "-a" by { assert "+a"[1..] == "a"; }
    assert DashRuns("0+a", true) == "0-a" by { assert "0+a"[1..] == "+a"; }
    assert DashRuns(".0+a", false) == "-0-a" by { assert ".0+a"[1..] == "0+a"; }
    assert DashRuns("0.0+a", true) == "0-0-a" by { assert "0.0+a"[1..] == ".0+a"; }
    assert DashRuns(".0.0+a", false) == "-0-0-a" by { assert ".0.0+a"[1..] == "0.0+a"; }
    assert DashRuns("1.0.0+a", false) == "1-0-0-a" by { assert "1.0.0+a"[1..] == ".0.0+a"; }
    assert TrimDashes("1-0-0-a") == "1-0-0-a";
    assert ToLower("1-0-0-a") == "1-0-0-a";
  }

  lemma FormatMinus()
    ensures FormatOperatorName("1.0.0-a") == "1-0-0-a"
  {
    assert "1.0.0-a"[1] == '.';
    assert DashRuns("a", true) == "a";
    assert DashRuns("-a", false) == "-a" by { assert "-a"[1..] == "a"; }
    assert DashRuns("0-a", true) == "0-a" by { assert "0-a"[1..] == "-a"; }
    assert DashRuns(".0-a", false) == "-0-a" by { assert ".0-a"[1..] == "0-a"; }
    assert DashRuns("0.0-a", true) == "0-0-a" by { assert "0.0-a"[1..] == ".0-a"; }
    assert DashRuns(".0.0-a", false) == "-0-0-a" by { assert ".0.0-a"[1..] == "0.0-a"; }
    assert DashRuns("1.0.0-a", false) == "1-0-0-a" by { assert "1.0.0-a"[1..] == ".0.0-a"; }
    assert TrimDashes("1-0-0-a") == "1-0-0-a";
    assert ToLower("1-0-0-a") == "1-0-0-a";
  }

  /** A build version and a pre-release version that look the same in a name: the registry made
      for both is stale from the start. */
  lemma CollidingVersionsAlwaysStale(hash: Bytes -> string, cms: seq<ConfigMap>, p: Package, x: Bundle, y: Bundle)
    requires x.version == "1.0.0+a" && y.version == "1.0.0-a"
    requires DistinctNames(cms) && Desired(hash, p, [x, y]).Ok? && Stored(cms) == Desired(hash, p, [x, y]).value
    ensures Stale(cms, [x, y], Desired(hash, p, [x, y]).value)
  {
    FormatPlus();
    FormatMinus();
    var bundles := [x, y];
    assert Labels(bundles)[1] == "1-0-0-a" == Labels(bundles)[2];
    NamesDistinctIff(p, bundles);
    FreshRegistryIff(hash, cms, p, bundles);
  }

  // ---- every object is stored ----

  /** The file key of an object: the hash of its contents, its name and its kind in lower case as
      far as they are not empty, and "yaml", joined by dots. */
  function KeyOf(hash: Bytes -> string, o: Object): string
    requires o.yaml.Some?
  {
    hash(o.yaml.value) + "." + (if o.name == "" then "" else ToLower(o.name) + ".")
    + (if o.kind == "" then "" else ToLower(o.kind) + ".") + "yaml"
  }

  lemma FileNameIs(hash: Bytes -> string, o: Object)
    requires o.yaml.Some?
    ensures FileName(hash, o.yaml.value, [o.name, o.kind]) == KeyOf(hash, o)
  {
    var x := if o.name == "" then "" else ToLower(o.name) + ".";
    var y := if o.kind == "" then "" else ToLower(o.kind) + ".";
    assert [o.name, o.kind][1..] == [o.kind] && [o.kind][1..] == [];
    assert Dotted([]) == "" && Dotted([o.kind]) == y + "";
    assert y + "" == y;
    assert Dotted([o.name, o.kind]) == x + y;
    assert (hash(o.yaml.value) + ".") + (x + y) + "yaml" == hash(o.yaml.value) + "." + x + y + "yaml";
  }

  ghost predicate AllMarshalled(objects: seq<Object>) { forall o :: o in objects ==> o.yaml.Some? }

  /** The objects with file keys of their own. */
  ghost predicate OwnKeys(hash: Bytes -> string, objects: seq<Object>)
    requires AllMarshalled(objects)
  {
    forall i, j :: 0 <= i < j < |objects| ==> KeyOf(hash, objects[i]) != KeyOf(hash, objects[j])
  }

  lemma {:induction false} AddObjectsHas(hash: Bytes -> string, data: Data, objects: seq<Object>, k: string)
    ensures AddObjects(hash, data, objects).Some? <==> AllMarshalled(objects)
    ensures AllMarshalled(objects) ==>
              var r := AddObjects(hash, data, objects).value;
              && (k in r <==> k in data || exists o :: o in objects && KeyOf(hash, o) == k)
              && (k in r ==> (k in data && r[k] == data[k])
                             || exists o :: o in objects && KeyOf(hash, o) == k && r[k] == o.yaml.value)
              && (k in data && (forall o :: o in objects ==> KeyOf(hash, o) != k) ==> r[k] == data[k])
    decreases objects
  {
    if objects != [] {
      var o, rest := objects[0], objects[1..];
      assert objects == [o] + rest;
      if o.yaml.Some? {
        FileNameIs(hash, o);
        AddObjectsHas(hash, data[KeyOf(hash, o) := o.yaml.value], rest, k);
        assert AllMarshalled(objects) <==> AllMarshalled(rest);
      } else {
        assert o in objects;
      }
    }
  }

  /** A bundle can be stored exactly if all its objects can be marshalled. Then the files are those
      of its objects, under their keys and nothing else, and each has the contents of an object of
      that key. */
  lemma {:induction false} BundleStores(hash: Bytes -> string, objects: seq<Object>)
    ensures AddObjects(hash, map[], objects).Some? <==> AllMarshalled(objects)
    ensures AllMarshalled(objects) ==>
              var data := AddObjects(hash, map[], objects).value;
              && (forall o :: o in objects ==> KeyOf(hash, o) in data)
              && (forall k :: k in data ==> exists o :: o in objects && KeyOf(hash, o) == k && data[k] == o.yaml.value)
  {
    forall k
      ensures AddObjects(hash, map[], objects).Some? <==> AllMarshalled(objects)
      ensures AllMarshalled(objects) ==>
                var data := AddObjects(hash, map[], objects).value;
                && (k in data <==> exists o :: o in objects && KeyOf(hash, o) == k)
                && (k in data ==> exists o :: o in objects && KeyOf(hash, o) == k && data[k] == o.yaml.value)
    {
      AddObjectsHas(hash, map[], objects, k);
    }
    AddObjectsHas(hash, map[], objects, "");
  }

  // ---- what the registry is made of ----

  ghost predicate Storable(b: Bundle) { b.version != "" && AllMarshalled(b.objects) }

  lemma {:induction false} AddBundlesSucceeds(hash: Bytes -> string, p: Package, maps: map<string, Data>,
                                              bundles: seq<Bundle>)
    ensures AddBundles(hash, p, maps, bundles).Ok? <==> forall b :: b in bundles ==> Storable(b)
    decreases bundles
  {
    if bundles != [] {
      var b := bundles[0];
      assert bundles == [b] + bundles[1..] && b in bundles;
      BundleStores(hash, b.objects);
      if Storable(b) {
        AddBundlesSucceeds(hash, p, maps[BundleMapName(p, b) := AddObjects(hash, map[], b.objects).value],
                           bundles[1..]);
      }
    }
  }

  lemma {:induction false} AddBundlesKeeps(hash: Bytes -> string, p: Package, maps: map<string, Data>,
                                           bundles: seq<Bundle>, n: string)
    requires AddBundles(hash, p, maps, bundles).Ok? && n in maps && forall b :: b in bundles ==>
               BundleMapName(p, b) != n
    ensures var r := AddBundles(hash, p, maps, bundles).value; n in r && r[n] == maps[n]
    decreases bundles
  {
    if bundles != [] {
      var b := bundles[0];
      assert bundles == [b] + bundles[1..] && b in bundles;
      AddBundlesKeeps(hash, p, maps[BundleMapName(p, b) := AddObjects(hash, map[], b.objects).value], bundles[1..], n);
    }
  }

  lemma {:induction false} AddBundlesStores(hash: Bytes -> string, p: Package, maps: map<string, Data>,
                                            bundles: seq<Bundle>, b: Bundle)
    requires AddBundles(hash, p, maps, bundles).Ok? && b in bundles && OneBundleOf(p, bundles, b)
    ensures var r := AddBundles(hash, p, maps, bundles).value;
            BundleMapName(p, b) in r && AddObjects(hash, map[], b.objects) == Some(r[BundleMapName(p, b)])
    decreases bundles
  {
    var first, rest := bundles[0], bundles[1..];
    assert bundles == [first] + rest && first in bundles;
    var after := maps[BundleMapName(p, first) := AddObjects(hash, map[], first.objects).value];
    if b in rest {
      assert OneBundleOf(p, rest, b);
      AddBundlesStores(hash, p, after, rest, b);
    } else {
      forall x | x in rest ensures BundleMapName(p, x) != BundleMapName(p, b) { assert x in bundles; }
      AddBundlesKeeps(hash, p, after, rest, BundleMapName(p, b));
    }
  }

  /** No other bundle has the ConfigMap name of this one. */
  ghost predicate OneBundleOf(p: Package, bundles: seq<Bundle>, b: Bundle) {
    forall x :: x in bundles && BundleMapName(p, x) == BundleMapName(p, b) ==> x == b
  }

  /** The registry can be made exactly if the package and all objects can be marshalled and every
      bundle has a version. If no ConfigMap names collide it then has, under the name of the package,
      the manifest of the package, and under that of each bundle the files of its objects. */
  lemma {:induction false} DesiredIs(hash: Bytes -> string, p: Package, bundles: seq<Bundle>)
    ensures Desired(hash, p, bundles).Ok? <==> p.yaml.Some? && forall b :: b in bundles ==> Storable(b)
    ensures Desired(hash, p, bundles).Ok? && NoDuplicates(Names(p, bundles)) ==>
              var r := Desired(hash, p, bundles).value;
              && PackageMapName(p) in r && r[PackageMapName(p)] == map[hash(p.yaml.value) + ".yaml" := p.yaml.value]
              && forall b :: b in bundles ==>
                   BundleMapName(p, b) in r && AddObjects(hash, map[], b.objects) == Some(r[BundleMapName(p, b)])
  {
    if p.yaml.Some? {
      var y := p.yaml.value;
      assert (hash(y) + ".") + "" == hash(y) + "." && (hash(y) + ".") + "yaml" == hash(y) + ".yaml";
      assert FileName(hash, y, []) == hash(y) + ".yaml";
      var maps := map[PackageMapName(p) := map[FileName(hash, y, []) := y]];
      AddBundlesSucceeds(hash, p, maps, bundles);
      if Desired(hash, p, bundles).Ok? && NoDuplicates(Names(p, bundles)) {
        OwnNames(p, bundles);
        AddBundlesKeeps(hash, p, maps, bundles, PackageMapName(p));
        forall b | b in bundles
          ensures var r := Desired(hash, p, bundles).value;
                  BundleMapName(p, b) in r && AddObjects(hash, map[], b.objects) == Some(r[BundleMapName(p, b)])
        {
          AddBundlesStores(hash, p, maps, bundles, b);
        }
      }
    }
  }

  lemma {:induction false} AddBundlesFails(hash: Bytes -> string, p: Package, maps: map<string, Data>,
                                           bundles: seq<Bundle>, i: nat)
    requires i < |bundles| && !Storable(bundles[i]) && forall j :: 0 <= j < i ==> Storable(bundles[j])
    ensures AddBundles(hash, p, maps, bundles)
            == Failed(if bundles[i].version == "" then NoVersion(bundles[i].csv) else NotMarshalled)
    decreases i
  {
    var b := bundles[0];
    BundleStores(hash, b.objects);
    if i > 0 {
      assert Storable(b);
      AddBundlesFails(hash, p, maps[BundleMapName(p, b) := AddObjects(hash, map[], b.objects).value], bundles[1..],
                      i - 1);
    }
  }

  /** If the package can be marshalled, the first bundle that cannot be stored decides the error: that
      it has no version, or else that it cannot be marshalled. */
  lemma {:induction false} DesiredFails(hash: Bytes -> string, p: Package, bundles: seq<Bundle>, i: nat)
    ensures p.yaml.None? ==> Desired(hash, p, bundles) == Failed(NotMarshalled)
    ensures p.yaml.Some? && i < |bundles| && !Storable(bundles[i]) && (forall j :: 0 <= j < i ==> Storable(bundles[j]))
            ==> Desired(hash, p, bundles)
                == Failed(if bundles[i].version == "" then NoVersion(bundles[i].csv) else NotMarshalled)
  {
    if p.yaml.Some? && i < |bundles| && !Storable(bundles[i]) && (forall j :: 0 <= j < i ==> Storable(bundles[j])) {
      var b := p.yaml.value;
      AddBundlesFails(hash, p, map[PackageMapName(p) := map[FileName(hash, b, []) := b]], bundles, i);
    }
  }

  lemma {:induction false} NamesAt(p: Package, bundles: seq<Bundle>, i: nat)
    requires i < |bundles|
    ensures |Names(p, bundles)| == |bundles| + 1 && Names(p, bundles)[0] == PackageMapName(p)
    ensures Names(p, bundles)[i + 1] == BundleMapName(p, bundles[i])
  {
  }

  lemma {:induction false} NameIsOwn(p: Package, bundles: seq<Bundle>, i: nat, j: nat)
    requires NoDuplicates(Names(p, bundles)) && i < |bundles| && j < |bundles|
    ensures BundleMapName(p, bundles[i]) != PackageMapName(p)
    ensures BundleMapName(p, bundles[i]) == BundleMapName(p, bundles[j]) ==> i == j
  {
    var names := Names(p, bundles);
    NamesAt(p, bundles, i);
    NamesAt(p, bundles, j);
    assert names[0] != names[i + 1];
    if i < j { assert names[i + 1] != names[j + 1]; }
    if j < i { assert names[j + 1] != names[i + 1]; }
  }

  lemma {:induction false} OwnNames(p: Package, bundles: seq<Bundle>)
    requires NoDuplicates(Names(p, bundles))
    ensures forall b :: b in bundles ==> BundleMapName(p, b) != PackageMapName(p) && OneBundleOf(p, bundles, b)
  {
    forall b | b in bundles ensures BundleMapName(p, b) != PackageMapName(p) && OneBundleOf(p, bundles, b) {
      var i :| 0 <= i < |bundles| && bundles[i] == b;
      NameIsOwn(p, bundles, i, i);
      forall x | x in bundles && BundleMapName(p, x) == BundleMapName(p, b) ensures x == b {
        var j :| 0 <= j < |bundles| && bundles[j] == x;
        NameIsOwn(p, bundles, i, j);
      }
    }
  }

  // ---- names ----

  predicate LetterOrDigit(c: char) { 'a' <= c <= 'z' || 'A' <= c <= 'Z' || '0' <= c <= '9' }

  ghost predicate IsWord(w: string) { w != "" && forall c :: c in w ==> LetterOrDigit(c) }

  ghost predicate IsGap(g: string) { forall c :: c in g ==> !LetterOrDigit(c) }

  /** The name is the words, with the gaps before, between and after them. */
  ghost predicate Consists(name: string, words: seq<string>, gaps: seq<string>)
    decreases |words|
  {
    && |gaps| == |words| + 1 && IsGap(gaps[0])
    && if words == [] then name == gaps[0] else
         && IsWord(words[0]) && (|words| > 1 ==> gaps[1] != "")
         && gaps[0] + words[0] <= name && Consists(name[|gaps[0] + words[0]|..], words[1..], gaps[1..])
  }

  /** The words joined by dashes, with a dash for a gap at the ends. */
  function WithEnds(words: seq<string>, gaps: seq<string>, inRun: bool): string
    requires |gaps| == |words| + 1
  {
    (if gaps[0] != "" && !inRun then "-" else "") + Join(words, '-')
    + if words != [] && gaps[|words|] != "" then "-" else ""
  }

  lemma {:induction false} ConsistsAfterGap(c: char, name: string, words: seq<string>, gaps: seq<string>)
    requires Consists(name, words, gaps) && !LetterOrDigit(c)
    ensures Consists([c] + name, words, [[c] + gaps[0]] + gaps[1..])
  {
    if words != [] {
      assert ([c] + name)[|([c] + gaps[0]) + words[0]|..] == name[|gaps[0] + words[0]|..];
      assert ([c] + gaps[0]) + words[0] == [c] + (gaps[0] + words[0]);
    }
  }

  lemma {:induction false} ConsistsAfterLetter(c: char, name: string, words: seq<string>, gaps: seq<string>)
    requires Consists(name, words, gaps) && LetterOrDigit(c)
    ensures if words != [] && gaps[0] == "" then Consists([c] + name, [[c] + words[0]] + words[1..], gaps)
            else Consists([c] + name, [[c]] + words, [""] + gaps)
  {
    assert ([c] + name)[|"" + [c]|..] == name;
    assert ([[c]] + words)[1..] == words && ([""] + gaps)[1..] == gaps;
    if words != [] && gaps[0] == "" {
      assert ([c] + name)[|gaps[0] + ([c] + words[0])|..] == name[|gaps[0] + words[0]|..];
      assert gaps[0] + ([c] + words[0]) == [c] + (gaps[0] + words[0]);
      assert ([[c] + words[0]] + words[1..])[1..] == words[1..];
    }
  }

  lemma {:induction false} EndsAfterGap(c: char, words: seq<string>, gaps: seq<string>, inRun: bool)
    requires |gaps| == |words| + 1
    ensures WithEnds(words, [[c] + gaps[0]] + gaps[1..], inRun)
            == if inRun then WithEnds(words, gaps, true) else "-" + WithEnds(words, gaps, true)
  {
    assert words != [] ==> ([[c] + gaps[0]] + gaps[1..])[|words|] == gaps[|words|];
  }

  lemma {:induction false} EndsInWord(c: char, words: seq<string>, gaps: seq<string>, inRun: bool)
    requires |gaps| == |words| + 1 && words != [] && gaps[0] == ""
    ensures WithEnds([[c] + words[0]] + words[1..], gaps, inRun) == [c] + WithEnds(words, gaps, false)
  {
    if |words| > 1 { assert ([[c] + words[0]] + words[1..])[1..] == words[1..]; }
    assert Join([[c] + words[0]] + words[1..], '-') == [c] + Join(words, '-');
  }

  lemma {:induction false} EndsAfterLetter(c: char, words: seq<string>, gaps: seq<string>, inRun: bool)
    requires |gaps| == |words| + 1 && (words != [] ==> gaps[0] != "")
    ensures WithEnds([[c]] + words, [""] + gaps, inRun) == [c] + WithEnds(words, gaps, false)
  {
    assert ([[c]] + words)[1..] == words && ([""] + gaps)[|words| + 1] == gaps[|words|];
    if words != [] { assert Join([[c]] + words, '-') == [c] + "-" + Join(words, '-'); }
  }

  lemma {:induction false} DashRunsIs(name: string, inRun: bool) returns (words: seq<string>, gaps: seq<string>)
    ensures Consists(name, words, gaps) && DashRuns(name, inRun) == WithEnds(words, gaps, inRun)
  {
    if name == "" {
      words, gaps := [], [""];
      return;
    }
    var c := name[0];
    assert name == [c] + name[1..];
    words, gaps := DashRunsIs(name[1..], !LetterOrDigit(c));
    if !LetterOrDigit(c) {
      ConsistsAfterGap(c, name[1..], words, gaps);
      EndsAfterGap(c, words, gaps, inRun);
      gaps := [[c] + gaps[0]] + gaps[1..];
    } else {
      ConsistsAfterLetter(c, name[1..], words, gaps);
      if words != [] && gaps[0] == "" {
        EndsInWord(c, words, gaps, inRun);
        words := [[c] + words[0]] + words[1..];
      } else {
        EndsAfterLetter(c, words, gaps, inRun);
        words, gaps := [[c]] + words, [""] + gaps;
      }
    }
  }

  lemma {:induction false} JoinedEnds(name: string, words: seq<string>, gaps: seq<string>)
    requires Consists(name, words, gaps) && words != []
    ensures var j := Join(words, '-'); j != "" && LetterOrDigit(j[0]) && LetterOrDigit(j[|j| - 1])
    decreases |words|
  {
    var w := words[0];
    assert w[0] in w && w[|w| - 1] in w;
    if |words| > 1 { JoinedEnds(name[|gaps[0] + w|..], words[1..], gaps[1..]); }
  }

  lemma {:induction false} TrimmedEnds(words: seq<string>, gaps: seq<string>, name: string)
    requires Consists(name, words, gaps)
    ensures TrimDashes(WithEnds(words, gaps, false)) == Join(words, '-')
  {
    var j, s := Join(words, '-'), WithEnds(words, gaps, false);
    if words != [] {
      JoinedEnds(name, words, gaps);
      var t := if gaps[0] != "" then s[1..] else s;
      assert t == j || t == j + "-";
      assert (j + "-")[..|j|] == j;
      assert TrimDashes(t) == j;
    } else if gaps[0] != "" {
      assert s == "-" && s[1..] == "";
    }
  }

  /** A name is left as it is if it is a DNS label; otherwise its words of letters and digits are
      joined by dashes, whatever is before, between and after them, in lower case. */
  lemma {:induction false} FormattedNameIs(name: string) returns (words: seq<string>, gaps: seq<string>)
    ensures Consists(name, words, gaps)
    ensures FormatOperatorName(name) == if IsDNS1123Label(name) then name else ToLower(Join(words, '-'))
  {
    words, gaps := DashRunsIs(name, false);
    TrimmedEnds(words, gaps, name);
  }

  /** The ConfigMap names: the formatted package name, and which part of the registry it is. */
  lemma MapNamesAre(p: Package, b: Bundle)
    ensures PackageMapName(p) == FormatOperatorName(p.name) + "-registry-manifests" + "-package"
    ensures BundleMapName(p, b) == FormatOperatorName(p.name) + "-registry-manifests"
            + ("-" + FormatOperatorName(b.version))
  {
  }
}
