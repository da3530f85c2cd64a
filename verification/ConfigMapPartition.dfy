/** Packing the documents of a file-based catalog into gzip-compressed ConfigMaps. */
module ConfigMapPartition {
  import opened Wrappers
  import opened Seqs
  import opened Text
  import YamlReader

  newtype Byte = x: int | 0 <= x < 256
  type Bytes = seq<Byte>

  const SEPARATOR := "\n---\n"
  const GZIP_SUFFIX_LENGTH := 13
  const MAX_CONFIG_MAP_SIZE := 1 * 1024 * 1024
  const MAX_GZIP_LENGTH := MAX_CONFIG_MAP_SIZE - GZIP_SUFFIX_LENGTH

  /** What the model takes from gzip and from ConfigMap sizes, as functions of the pieces of
      text written in turn: the length of the buffer after writing them with a flush after
      each but the first, the closed stream, and what a stream decompresses to; and the size
      of an empty ConfigMap of a given name. */
  datatype Codec = Codec(
    flushedLength: seq<string> -> nat,
    closed: seq<string> -> Bytes,
    inflate: Bytes -> string,
    emptySize: string -> nat)

  function Concat(pieces: seq<string>): string {
    if pieces == [] then "" else pieces[0] + Concat(pieces[1..])
  }

  ghost predicate Lossless(c: Codec) { forall w :: c.inflate(c.closed(w)) == Concat(w) }

  function PartitionName(base: string, k: nat): string { base + "-partition-" + Decimal(k) }

  /** The name is the base, "-partition-" and the digits of the number. */
  ghost predicate IsNumbered(base: string, name: string, k: nat) {
    exists digits :: IsDigits(digits) && ValueOf(digits) == k && name == base + "-partition-" + digits
  }

  lemma PartitionNameIsNumbered(base: string, k: nat)
    ensures IsNumbered(base, PartitionName(base, k), k)
  {
    DecimalReadsBack(k);
  }

  lemma NumbersOfName(base: string, name: string, j: nat, k: nat)
    requires IsNumbered(base, name, j) && IsNumbered(base, name, k)
    ensures j == k
  {
    var x :| IsDigits(x) && ValueOf(x) == j && name == base + "-partition-" + x;
    var y :| IsDigits(y) && ValueOf(y) == k && name == base + "-partition-" + y;
    var prefix := base + "-partition-";
    assert x == name[|prefix|..] == y;
  }

  // ---- the specification ----

  /** The documents worth storing. */
  function Documents(defs: seq<string>): seq<string> {
    if defs == [] then []
    else (if TrimSpace(defs[0]) == "" then [] else [TrimSpace(defs[0])]) + Documents(defs[1..])
  }

  /** The pieces written for the documents of one partition. */
  function Pieces(docs: seq<string>): (r: seq<string>)
    ensures |r| == |docs|
  {
    seq(|docs|, i requires 0 <= i < |docs| => if i == 0 then docs[i] else SEPARATOR + docs[i])
  }

  /** The size test for partition `k` made when its last document is to be added. */
  predicate Exceeds(c: Codec, base: string, k: nat, docs: seq<string>) {
    c.emptySize(PartitionName(base, k)) + c.flushedLength(Pieces(docs)) > MAX_GZIP_LENGTH
  }

  /** Greedy packing: partition `k` holds `cur` so far and `rest` is still to be packed. */
  function Pack(c: Codec, base: string, k: nat, cur: seq<string>, rest: seq<string>): (r: seq<seq<string>>)
    ensures |r| >= 1
    decreases |rest|
  {
    if rest == [] then [cur]
    else if cur != [] && Exceeds(c, base, k, cur + [rest[0]]) then [cur] + Pack(c, base, k + 1, [rest[0]], rest[1..])
    else Pack(c, base, k, cur + [rest[0]], rest[1..])
  }

  function Partition(c: Codec, base: string, defs: seq<string>): seq<seq<string>> {
    Pack(c, base, 1, [], Documents(defs))
  }

  // ---- the writer and the loop ----

  class ConfigMap {
    const name: string
    var binaryData: Option<Bytes>

    constructor (name: string)
      ensures this.name == name && binaryData == None
    {
      this.name, binaryData := name, None;
    }
  }

  /** Two compressors fed with the same text: one to measure and one to store. The fields hold
      the pieces written to each since the last reset. */
  class GzipCMWriter {
    const codec: Codec
    var actual: seq<string>
    var helper: seq<string>

    constructor (codec: Codec)
      ensures this.codec == codec && actual == [] && helper == []
    {
      this.codec, actual, helper := codec, [], [];
    }

    method Reset()
      modifies this
      ensures actual == [] && helper == []
    {
      actual, helper := [], [];
    }

    /** Despite the name it has in the code, true when something has been written: the header
        goes into the buffer with the first write. */
    predicate IsEmpty()
      reads this
    {
      |actual| > 0
    }

    method ExceedMaxLength(cmSize: nat, data: string) returns (exceeded: bool)
      modifies this`helper
      ensures helper == old(helper) + [data]
      ensures exceeded <==> cmSize + codec.flushedLength(helper) > MAX_GZIP_LENGTH
    {
      helper := helper + [data];
      exceeded := cmSize + codec.flushedLength(helper) > MAX_GZIP_LENGTH;
    }

    method CloseCM(cm: ConfigMap)
      modifies this, cm
      ensures cm.binaryData == Some(codec.closed(old(actual)))
      ensures actual == [] && helper == []
    {
      cm.binaryData := Some(codec.closed(actual));
      Reset();
    }

    method AddData(data: string)
      modifies this
      ensures actual == old(actual) + [data] && helper == old(helper) + [data]
    {
      helper := helper + [data];
      actual := actual + [data];
    }

    method ContinueAddData(data: string)
      modifies this`actual
      ensures actual == old(actual) + [data]
    {
      actual := actual + [data];
    }

    method WriteLastFragment(cm: ConfigMap)
      modifies cm
      ensures cm.binaryData == Some(codec.closed(actual))
    {
      cm.binaryData := Some(codec.closed(actual));
    }
  }

  lemma PiecesStep(docs: seq<string>, d: string)
    ensures Pieces(docs + [d]) == Pieces(docs) + [if docs == [] then d else SEPARATOR + d]
  {
  }

  class FBCRegistryPod {
    const configMapName: string
    const fbcContent: string
    const fills: string -> bool
    const cmWriter: GzipCMWriter

    constructor (name: string, content: string, fills: string -> bool, writer: GzipCMWriter)
      ensures configMapName == name && fbcContent == content && this.fills == fills && cmWriter == writer
    {
      configMapName, fbcContent, this.fills, cmWriter := name, content, fills, writer;
    }

    /** Adds one document to the partition being filled, or closes that partition and starts
        the next one with it. */
    method AddDocument(doc: string, cm: ConfigMap, count: nat, ghost cur: seq<string>)
      returns (next: ConfigMap, started: bool)
      requires cm.name == PartitionName(configMapName, count)
      requires cmWriter.actual == Pieces(cur) && cmWriter.helper == Pieces(cur)
      modifies cmWriter, cm
      ensures started <==> cur != [] && Exceeds(cmWriter.codec, configMapName, count, cur + [doc])
      ensures started ==> fresh(next) && next.name == PartitionName(configMapName, count + 1)
      ensures started ==> cm.binaryData == Some(cmWriter.codec.closed(Pieces(cur)))
      ensures !started ==> next == cm && cm.binaryData == old(cm.binaryData)
      ensures cmWriter.actual == cmWriter.helper == Pieces(if started then [doc] else cur + [doc])
    {
      next, started := cm, false;
      PiecesStep(cur, doc);
      PiecesStep([], doc);
      assert Pieces([]) + [doc] == [doc] && [] + [doc] == [doc];
      if cmWriter.IsEmpty() {
        var data := SEPARATOR + doc;
        started := cmWriter.ExceedMaxLength(cmWriter.codec.emptySize(cm.name), data);
        if started {
          cmWriter.CloseCM(cm);
          next := new ConfigMap(PartitionName(configMapName, count + 1));
          cmWriter.AddData(doc);
        } else {
          cmWriter.ContinueAddData(data);
        }
      } else {
        cmWriter.AddData(doc);
      }
    }

    /** These ConfigMaps hold the partitions, closed and named in order. */
    ghost predicate Holds(cms: seq<ConfigMap>, parts: seq<seq<string>>)
      reads cms
    {
      && |cms| == |parts|
      && forall i :: 0 <= i < |parts| ==>
           && cms[i].name == PartitionName(configMapName, i + 1)
           && cms[i].binaryData == Some(cmWriter.codec.closed(Pieces(parts[i])))
    }

    /** The names are the base with the positions counted from one, and no two are the same. */
    ghost predicate NumberedFromOne(cms: seq<ConfigMap>) {
      && (forall i :: 0 <= i < |cms| ==> IsNumbered(configMapName, cms[i].name, i + 1))
      && forall i, j :: 0 <= i < j < |cms| ==> cms[i].name != cms[j].name
    }

    lemma HeldAreNumbered(cms: seq<ConfigMap>, parts: seq<seq<string>>)
      requires Holds(cms, parts)
      ensures NumberedFromOne(cms)
    {
      forall i | 0 <= i < |cms| ensures IsNumbered(configMapName, cms[i].name, i + 1) {
        PartitionNameIsNumbered(configMapName, i + 1);
      }
      forall i, j | 0 <= i < j < |cms| ensures cms[i].name != cms[j].name {
        if cms[i].name == cms[j].name { NumbersOfName(configMapName, cms[i].name, i + 1, j + 1); }
      }
    }

    lemma HoldsOneMore(cms: seq<ConfigMap>, parts: seq<seq<string>>, cm: ConfigMap, part: seq<string>)
      requires Holds(cms, parts) && cm.name == PartitionName(configMapName, |parts| + 1)
      requires cm.binaryData == Some(cmWriter.codec.closed(Pieces(part)))
      ensures Holds(cms + [cm], parts + [part])
    {
    }

    /** The state of the loop: closed ConfigMaps, the one being filled, and its documents. */
    ghost predicate Filling(cms: seq<ConfigMap>, done: seq<ConfigMap>, cm: ConfigMap, full: seq<seq<string>>,
                            cur: seq<string>)
      reads cmWriter, done
    {
      && cms == done + [cm] && cm !in done && Holds(done, full)
      && cm.name == PartitionName(configMapName, |full| + 1)
      && cmWriter.actual == cmWriter.helper == Pieces(cur)
    }

    method Place(doc: string, cms: seq<ConfigMap>, cm: ConfigMap,
                 ghost done: seq<ConfigMap>, ghost full: seq<seq<string>>, ghost cur: seq<string>)
      returns (cms': seq<ConfigMap>, cm': ConfigMap,
               ghost done': seq<ConfigMap>, ghost full': seq<seq<string>>, ghost cur': seq<string>)
      requires Filling(cms, done, cm, full, cur)
      modifies cmWriter, cm
      ensures Filling(cms', done', cm', full', cur')
      ensures (cm' == cm || fresh(cm')) && forall c :: c in done' ==> c in done || c == cm
      ensures if cur != [] && Exceeds(cmWriter.codec, configMapName, |full| + 1, cur + [doc])
              then full' == full + [cur] && cur' == [doc]
              else full' == full && cur' == cur + [doc]
    {
      var next, started := AddDocument(doc, cm, |cms|, cur);
      assert Holds(done, full);
      cms', cm', done', full', cur' := cms, cm, done, full, cur + [doc];
      if started {
        HoldsOneMore(done, full, cm, cur);
        cms', cm', done', full', cur' := cms + [next], next, cms, full + [cur], [doc];
      }
    }

    /** The loop over the documents. The last ConfigMap is left open. */
    method PackDocuments(yamlDefs: seq<string>, first: ConfigMap)
      returns (cms: seq<ConfigMap>, cm: ConfigMap, ghost done: seq<ConfigMap>, ghost full: seq<seq<string>>,
               ghost cur: seq<string>)
      requires cmWriter.actual == [] && cmWriter.helper == [] && first.name == PartitionName(configMapName, 1)
      modifies cmWriter, first
      ensures Filling(cms, done, cm, full, cur) && (cm == first || fresh(cm))
      ensures full + [cur] == Partition(cmWriter.codec, configMapName, yamlDefs)
    {
      cms, cm, done, full, cur := [first], first, [], [], [];
      ghost var rest := yamlDefs;
      for j := 0 to |yamlDefs|
        invariant rest == yamlDefs[j..] && Filling(cms, done, cm, full, cur)
        invariant (cm == first || fresh(cm)) && forall c :: c in done ==> c == first || fresh(c)
        invariant Outcome(cmWriter.codec, configMapName, full, cur, rest)
                  == Partition(cmWriter.codec, configMapName, yamlDefs)
      {
        var yamlDef := TrimSpace(yamlDefs[j]);
        OutcomeHead(cmWriter.codec, configMapName, full, cur, rest);
        if |yamlDef| != 0 {
          cms, cm, done, full, cur := Place(yamlDef, cms, cm, done, full, cur);
        }
        rest := rest[1..];
      }
    }

    method GetConfigMaps(yamlDefs: seq<string>) returns (configMaps: seq<ConfigMap>)
      requires cmWriter.actual == [] && cmWriter.helper == []
      modifies cmWriter
      ensures Holds(configMaps, Partition(cmWriter.codec, configMapName, yamlDefs))
      ensures NumberedFromOne(configMaps)
      ensures cmWriter.actual == [] && cmWriter.helper == []
    {
      var first := new ConfigMap(PartitionName(configMapName, 1));
      var cms, cm, done, full, cur := PackDocuments(yamlDefs, first);
      cmWriter.WriteLastFragment(cm);
      HoldsOneMore(done, full, cm, cur);
      cmWriter.Reset();
      configMaps := cms;
      HeldAreNumbered(configMaps, Partition(cmWriter.codec, configMapName, yamlDefs));
    }

    /** Reads the documents of the catalog and packs them, unless the text has a bad mark. */
    method PartitionedConfigMaps() returns (configMaps: Option<seq<ConfigMap>>)
      requires cmWriter.actual == [] && cmWriter.helper == []
      modifies cmWriter
      ensures configMaps.None? <==> CatalogDocuments(fbcContent, fills).None?
      ensures configMaps.Some? ==> NumberedFromOne(configMaps.value)
      ensures configMaps.Some? ==>
                Holds(configMaps.value, Partition(cmWriter.codec, configMapName,
                                                  CatalogDocuments(fbcContent, fills).value))
      ensures cmWriter.actual == [] && cmWriter.helper == []
    {
      var yamlReader := new YamlReader.YAMLReader(fbcContent, fills);
      var yamlDefs: seq<string> := [];
      assert yamlReader.Left() == YamlReader.Scan(fbcContent, fills);
      PrependNothing(CatalogDocuments(fbcContent, fills));
      while true
        invariant yamlReader.Valid() && fresh(yamlReader) && cmWriter.actual == [] && cmWriter.helper == []
        invariant YamlReader.Prepend(yamlDefs, YamlReader.Documents(yamlReader.Left()))
                  == CatalogDocuments(fbcContent, fills)
        decreases |yamlReader.Left().lines|
      {
        ghost var before := yamlReader.Left();
        var outcome := yamlReader.Read();
        PrependOne(yamlDefs, before);
        match outcome
        case EndOfText => break;
        case BadMark(_) => return None;
        case Document(doc) =>
          if |doc| != 0 {
            yamlDefs := yamlDefs + [doc];
          }
      }
      var cms := GetConfigMaps(yamlDefs);
      configMaps := Some(cms);
    }
  }

  function CatalogDocuments(content: string, fills: string -> bool): Option<seq<string>> {
    YamlReader.Documents(YamlReader.Scan(content, fills))
  }

  lemma PrependNothing(defs: Option<seq<string>>)
    ensures YamlReader.Prepend([], defs) == defs
  {
    if defs.Some? { assert [] + defs.value == defs.value; }
  }

  lemma PrependOne(defs: seq<string>, input: YamlReader.Input)
    ensures var (outcome, left) := YamlReader.ReadFrom(input, "");
            YamlReader.Prepend(defs, YamlReader.Documents(input)) ==
            match outcome
            case EndOfText => Some(defs)
            case BadMark(_) => None
            case Document(doc) => YamlReader.Prepend(defs + [doc], YamlReader.Documents(left))
  {
    var (outcome, left) := YamlReader.ReadFrom(input, "");
    if outcome.Document? && YamlReader.Documents(left).Some? {
      Assoc(defs, [outcome.text], YamlReader.Documents(left).value);
    } else if outcome.EndOfText? {
      assert defs + [] == defs;
    }
  }

  /** The partitions that come out when `full` are closed, `cur` is being filled and `rest` is
      still to be read. */
  function Outcome(c: Codec, base: string, full: seq<seq<string>>, cur: seq<string>,
                   rest: seq<string>): seq<seq<string>>
  {
    full + Pack(c, base, |full| + 1, cur, Documents(rest))
  }

  /** One step of the loop on the specification. */
  lemma OutcomeHead(c: Codec, base: string, full: seq<seq<string>>, cur: seq<string>, rest: seq<string>)
    requires rest != []
    ensures var doc := TrimSpace(rest[0]);
            Outcome(c, base, full, cur, rest) ==
            if doc == "" then Outcome(c, base, full, cur, rest[1..])
            else if cur != [] && Exceeds(c, base, |full| + 1, cur + [doc])
            then Outcome(c, base, full + [cur], [doc], rest[1..])
            else Outcome(c, base, full, cur + [doc], rest[1..])
  {
    var doc, later := TrimSpace(rest[0]), Documents(rest[1..]);
    assert [] + later == later;
    assert ([doc] + later)[1..] == later;
    Assoc(full, [cur], Pack(c, base, |full| + 2, [doc], later));
  }
}
