/** The ConfigMaps a package manifests registry is made of, and the check whether the ones on
    the cluster are out of date. */
module RegistryData {
  import opened Wrappers
  import opened Seqs
  import opened Text

  type Bytes = seq<bv8>

  /** File contents by file key. */
  type Data = map<string, Bytes>

  /** A value to store: its marshalled form, or `None` when it cannot be marshalled. */
  datatype Object = Object(name: string, kind: string, yaml: Option<Bytes>)
  datatype Bundle = Bundle(csv: string, version: string, objects: seq<Object>)
  datatype Package = Package(name: string, yaml: Option<Bytes>)
  datatype ConfigMap = ConfigMap(name: string, data: Data)

  datatype Error = NotListed | NotMarshalled | NoVersion(csv: string)
  datatype Result<+T> = Ok(value: T) | Failed(error: Error)

  // ---- names ----

  predicate AlphaNumeric(c: char) { 'a' <= c <= 'z' || 'A' <= c <= 'Z' || '0' <= c <= '9' }

  /** Every run of other characters becomes one dash. */
  function DashRuns(s: string, inRun: bool): string {
    if s == "" then ""
    else if AlphaNumeric(s[0]) then [s[0]] + DashRuns(s[1..], false)
    else if inRun then DashRuns(s[1..], true)
    else "-" + DashRuns(s[1..], true)
  }

  function TrimDashes(s: string): string {
    if s != "" && s[0] == '-' then TrimDashes(s[1..])
    else if s != "" && s[|s| - 1] == '-' then TrimDashes(s[..|s| - 1])
    else s
  }

  function FormatOperatorName(name: string): string {
    if IsDNS1123Label(name) then name else ToLower(TrimDashes(DashRuns(name, false)))
  }

  function RegistryConfigMapName(package: string): string { FormatOperatorName(package) + "-registry-manifests" }

  function PackageMapName(p: Package): string { RegistryConfigMapName(p.name) + "-package" }

  function BundleMapName(p: Package, b: Bundle): string {
    RegistryConfigMapName(p.name) + ("-" + FormatOperatorName(b.version))
  }

  /** The dotted, lower case form of the non-empty names. */
  function Dotted(names: seq<string>): string {
    if names == [] then ""
    else (if names[0] != "" then ToLower(names[0]) + "." else "") + Dotted(names[1..])
  }

  function FileName(hash: Bytes -> string, b: Bytes, names: seq<string>): string {
    ((hash(b) + ".") + Dotted(names)) + "yaml"
  }

  method MakeObjectFileName(hash: Bytes -> string, b: Bytes, names: seq<string>) returns (fileName: string)
    ensures fileName == FileName(hash, b, names)
  {
    fileName := hash(b) + ".";
    ghost var rest := names;
    for i := 0 to |names|
      invariant rest == names[i..] && fileName + Dotted(rest) == (hash(b) + ".") + Dotted(names)
    {
      Assoc(fileName, ToLower(names[i]) + ".", Dotted(rest[1..]));
      if names[i] != "" {
        fileName := fileName + (ToLower(names[i]) + ".");
      }
      rest := rest[1..];
    }
    assert fileName + "" == fileName;
    fileName := fileName + "yaml";
  }

  // ---- the desired ConfigMaps ----

  function AddObjects(hash: Bytes -> string, data: Data, objects: seq<Object>): Option<Data>
    decreases objects
  {
    if objects == [] then Some(data)
    else if objects[0].yaml.None? then None
    else
      var b := objects[0].yaml.value;
      AddObjects(hash, data[FileName(hash, b, [objects[0].name, objects[0].kind]) := b], objects[1..])
  }

  method MakeBundleBinaryData(hash: Bytes -> string, objects: seq<Object>) returns (data: Option<Data>)
    ensures data == AddObjects(hash, map[], objects)
  {
    var binaryData: Data := map[];
    ghost var rest := objects;
    for i := 0 to |objects|
      invariant rest == objects[i..] && AddObjects(hash, binaryData, rest) == AddObjects(hash, map[], objects)
    {
      if objects[i].yaml.None? { return None; }
      var b := objects[i].yaml.value;
      var name := MakeObjectFileName(hash, b, [objects[i].name, objects[i].kind]);
      binaryData := binaryData[name := b];
      rest := rest[1..];
    }
    return Some(binaryData);
  }

  function AddBundles(hash: Bytes -> string, p: Package, maps: map<string, Data>,
                      bundles: seq<Bundle>): Result<map<string, Data>>
    decreases bundles
  {
    if bundles == [] then Ok(maps)
    else if bundles[0].version == "" then Failed(NoVersion(bundles[0].csv))
    else match AddObjects(hash, map[], bundles[0].objects)
      case None => Failed(NotMarshalled)
      case Some(data) => AddBundles(hash, p, maps[BundleMapName(p, bundles[0]) := data], bundles[1..])
  }

  /** What the registry should hold, by ConfigMap name. */
  function Desired(hash: Bytes -> string, p: Package, bundles: seq<Bundle>): Result<map<string, Data>> {
    match p.yaml
    case None => Failed(NotMarshalled)
    case Some(b) => AddBundles(hash, p, map[PackageMapName(p) := map[FileName(hash, b, []) := b]], bundles)
  }

  method MakeConfigMapsForPackageManifests(hash: Bytes -> string, p: Package, bundles: seq<Bundle>)
    returns (r: Result<map<string, Data>>)
    ensures r == Desired(hash, p, bundles)
  {
    if p.yaml.None? { return Failed(NotMarshalled); }
    var fileName := MakeObjectFileName(hash, p.yaml.value, []);
    var maps: map<string, Data> := map[PackageMapName(p) := map[fileName := p.yaml.value]];
    ghost var rest := bundles;
    for i := 0 to |bundles|
      invariant rest == bundles[i..] && AddBundles(hash, p, maps, rest) == Desired(hash, p, bundles)
    {
      if bundles[i].version == "" { return Failed(NoVersion(bundles[i].csv)); }
      var data := MakeBundleBinaryData(hash, bundles[i].objects);
      if data.None? { return Failed(NotMarshalled); }
      maps := maps[BundleMapName(p, bundles[i]) := data.value];
      rest := rest[1..];
    }
    return Ok(maps);
  }

  // ---- creating and checking ----

  ghost predicate DistinctNames(cms: seq<ConfigMap>) {
    forall i, j :: 0 <= i < j < |cms| ==> cms[i].name != cms[j].name
  }

  /** What a list of ConfigMaps stores, by name. */
  function Stored(cms: seq<ConfigMap>): map<string, Data> {
    if cms == [] then map[] else Stored(cms[..|cms| - 1])[cms[|cms| - 1].name := cms[|cms| - 1].data]
  }

  /** Creates one ConfigMap for each desired one, in no particular order. */
  method NewConfigMaps(desired: map<string, Data>) returns (cms: seq<ConfigMap>)
    ensures DistinctNames(cms) && Stored(cms) == desired
  {
    var order := RangeOver(desired);
    cms := [];
    for i := 0 to |order|
      invariant |cms| == i && forall j :: 0 <= j < i ==> cms[j].name == order[j]
      invariant Stored(cms).Keys == Elements(order[..i])
      invariant forall k :: k in Stored(cms) ==> k in desired && Stored(cms)[k] == desired[k]
    {
      assert order[..i + 1] == order[..i] + [order[i]];
      assert order[i] in order;
      ghost var before := cms;
      cms := cms + [ConfigMap(order[i], desired[order[i]])];
      assert cms[..|cms| - 1] == before;
    }
    assert order[..|order|] == order && Elements(order) == desired.Keys;
  }

  /** Deletes the keys of `have` from `wanted`, unless one of them is missing there. */
  method DeleteMatched(wanted: Data, have: Data) returns (ok: bool, left: Data)
    ensures ok <==> have.Keys <= wanted.Keys
    ensures ok ==> left == wanted - have.Keys
  {
    var order := RangeOver(have);
    left := wanted;
    for i := 0 to |order|
      invariant left == wanted - Elements(order[..i]) && Elements(order[..i]) <= wanted.Keys
    {
      assert order[..i + 1] == order[..i] + [order[i]];
      assert order[i] in have && order[i] !in Elements(order[..i]);
      if order[i] !in left { return false, left; }
      left := left - {order[i]};
    }
    assert order[..|order|] == order && Elements(order) == have.Keys;
    ok := true;
  }

  /** The comparison: every ConfigMap must be wanted and have exactly the wanted keys. */
  predicate StaleFrom(cms: seq<ConfigMap>, desired: map<string, Data>)
    decreases cms
  {
    && cms != []
    && (|| cms[0].name !in desired
        || desired[cms[0].name].Keys != cms[0].data.Keys
        || StaleFrom(cms[1..], desired[cms[0].name := map[]]))
  }

  predicate Stale(cms: seq<ConfigMap>, bundles: seq<Bundle>, desired: map<string, Data>) {
    |cms| != |bundles| + 1 || StaleFrom(cms, desired)
  }

  method IsRegistryDataStale(
    hash: Bytes -> string, listed: Option<seq<ConfigMap>>, p: Package, bundles: seq<Bundle>)
    returns (r: Result<bool>)
    ensures r == match listed
                 case None => Failed(NotListed)
                 case Some(cms) =>
                   if |cms| != |bundles| + 1 then Ok(true)
                   else match Desired(hash, p, bundles)
                     case Failed(e) => Failed(e)
                     case Ok(desired) => Ok(Stale(cms, bundles, desired))
  {
    if listed.None? { return Failed(NotListed); }
    var cms := listed.value;
    if |cms| != |bundles| + 1 { return Ok(true); }
    var made := MakeConfigMapsForPackageManifests(hash, p, bundles);
    if made.Failed? { return Failed(made.error); }
    var stale := CompareConfigMaps(cms, made.value);
    return Ok(stale);
  }

  lemma SameSizeKeys(a: Data, b: Data)
    ensures b.Keys <= a.Keys && |a| == |b| ==> a.Keys == b.Keys
  {
    assert |a.Keys| == |a| && |b.Keys| == |b|;
    if b.Keys <= a.Keys && |a| == |b| { SubsetOfSameSize(b.Keys, a.Keys); }
  }

  /** Compares ConfigMap by ConfigMap, deleting the matched keys from the desired ones. */
  method CompareConfigMaps(cms: seq<ConfigMap>, desired: map<string, Data>) returns (stale: bool)
    ensures stale == StaleFrom(cms, desired)
  {
    var left := desired;
    ghost var rest := cms;
    for i := 0 to |cms|
      invariant rest == cms[i..] && StaleFrom(rest, left) == StaleFrom(cms, desired)
    {
      var cm := cms[i];
      if cm.name !in left { return true; }
      var binaryData := left[cm.name];
      if |binaryData| != |cm.data| {
        assert |binaryData.Keys| == |binaryData| && |cm.data.Keys| == |cm.data|;
        return true;
      }
      SameSizeKeys(binaryData, cm.data);
      var ok, unmatched := DeleteMatched(binaryData, cm.data);
      if !ok { return true; }
      left := left[cm.name := unmatched];
      if |unmatched| != 0 { return true; }
      assert unmatched == map[];
      rest := rest[1..];
    }
    return false;
  }
}
