/** The JSON patch that brings a live object up to what the chart expects without removing
    anything from it. Operations are those of section 4 of RFC 6902. */
module JsonPatch {
  import opened Wrappers
  import opened Seqs
  import opened EditDistance

  datatype Json = Null | Scalar(text: string) | Arr(items: seq<Json>) | Obj(fields: map<string, Json>)

  datatype Key = Field(name: string) | Index(i: nat)
  datatype OpKind = Add | Replace | Remove
  datatype Op = Op(kind: OpKind, path: seq<Key>, value: Json)

  // ---- what the library sees of a document ----

  /** JSON text has an escape sequence for this character, quotation marks aside. */
  predicate Escaped(c: char) {
    var n := c as int;
    n < 0x20 || c == '\\' || c == '<' || c == '>' || c == '&' || n == 0x2028 || n == 0x2029
  }

  /** The library looks a key up in the text of its object as it is, quotation marks aside, and
      lists it only if it is found there. */
  predicate Listed(key: string) { forall c :: c in key ==> !Escaped(c) }

  /** The document without the fields whose keys are not listed, at every depth. */
  function Seen(doc: Json): Json {
    match doc
    case Obj(f) => Obj(map k | k in f && Listed(k) :: Seen(f[k]))
    case Arr(items) => Arr(seq(|items|, i requires 0 <= i < |items| => Seen(items[i])))
    case _ => doc
  }

  /** The order in which the keys of an object are listed. */
  type KeyOrder = map<string, Json> -> seq<string>

  ghost predicate OrdersKeys(order: KeyOrder) { forall f: map<string, Json> :: IsOrder(order(f), f.Keys) }

  // ---- structural difference ----

  function Under(k: Key, ops: seq<Op>): (r: seq<Op>)
    ensures |r| == |ops|
  {
    if ops == [] then [] else [ops[0].(path := [k] + ops[0].path)] + Under(k, ops[1..])
  }

  /** Removal of the fields that `fb` lacks. */
  function Removes(keys: seq<string>, fb: map<string, Json>): seq<Op> {
    if keys == [] then []
    else (if keys[0] in fb then [] else [Op(Remove, [Field(keys[0])], Null)]) + Removes(keys[1..], fb)
  }

  /** Removal of the elements from position `n` on, last one first. */
  function RemovesFrom(n: nat, len: nat): seq<Op>
    requires n <= len
    decreases len
  {
    if n == len then [] else [Op(Remove, [Index(len - 1)], Null)] + RemovesFrom(n, len - 1)
  }

  function AddsFrom(n: nat, items: seq<Json>): seq<Op>
    decreases |items|
  {
    if items == [] then [] else [Op(Add, [Index(n)], items[0])] + AddsFrom(n + 1, items[1..])
  }

  function Shorter(x: seq<Json>, y: seq<Json>): (n: nat)
    ensures n <= |x| && n <= |y| && (n == |x| || n == |y|)
  {
    if |x| < |y| then |x| else |y|
  }

  predicate ScalarsOnly(items: seq<Json>) { forall i :: 0 <= i < |items| ==> items[i].Scalar? }

  /** The edits between two lists of scalars, from the back. */
  function Edits(ia: seq<Json>, ib: seq<Json>, i: nat, j: nat): seq<Op>
    requires i <= |ia| && j <= |ib|
    decreases i + j
  {
    if i + j == 0 then []
    else match LastEdit(ia, ib, i, j)
      case Drop => [Op(Remove, [Index(i - 1)], Null)] + Edits(ia, ib, i - 1, j)
      case Insert => [Op(Add, [Index(i)], ib[j - 1])] + Edits(ia, ib, i, j - 1)
      case Change => [Op(Replace, [Index(i - 1)], ib[j - 1])] + Edits(ia, ib, i - 1, j - 1)
      case Keep => Edits(ia, ib, i - 1, j - 1)
  }

  /** The difference as the library computes it from what it sees. A live null is met by an addition, lists of
      scalars by their edits, other lists position by position. */
  function Diff(order: KeyOrder, a: Json, b: Json): seq<Op>
    decreases b, 1, 0
  {
    match (a, b)
    case (Null, Null) => []
    case (Null, _) => [Op(Add, [], b)]
    case (Obj(fa), Obj(fb)) =>
      DiffFields(order, fa, b, order(fb)) + Removes(order(fa), fb)
    case (Arr(ia), Arr(ib)) =>
      if ScalarsOnly(ia) && ScalarsOnly(ib) then Edits(ia, ib, |ia|, |ib|)
      else
        var n := Shorter(ia, ib);
        RemovesFrom(n, |ia|) + AddsFrom(n, ib[n..]) + DiffItems(order, ia, b, n)
    case (Scalar(x), Scalar(y)) => if x == y then [] else [Op(Replace, [], b)]
    case _ => [Op(Replace, [], b)]
  }

  function DiffFields(order: KeyOrder, fa: map<string, Json>, b: Json, keys: seq<string>): seq<Op>
    requires b.Obj?
    decreases b, 0, |keys|
  {
    if keys == [] then []
    else
      var k := keys[0];
      (if k !in b.fields then []
       else if k in fa then Under(Field(k), Diff(order, fa[k], b.fields[k]))
       else [Op(Add, [Field(k)], b.fields[k])])
      + DiffFields(order, fa, b, keys[1..])
  }

  /** Differences of the first `n` elements. */
  function DiffItems(order: KeyOrder, ia: seq<Json>, b: Json, n: nat): seq<Op>
    requires b.Arr? && n <= |ia| && n <= |b.items|
    decreases b, 0, n
  {
    if n == 0 then []
    else DiffItems(order, ia, b, n - 1) + Under(Index(n - 1), Diff(order, ia[n - 1], b.items[n - 1]))
  }

  // ---- the filter ----

  predicate Relevant(op: Op) { op.kind != Remove && (op.kind != Add || op.value != Null) }

  function Filter(ops: seq<Op>): seq<Op> {
    if ops == [] then [] else (if Relevant(ops[0]) then [ops[0]] else []) + Filter(ops[1..])
  }

  /** The operations sent for a live object that is to have everything expected. */
  function Sent(order: KeyOrder, existing: Json, expected: Json): seq<Op> {
    Filter(Diff(order, Seen(existing), Seen(expected)))
  }

  /** The patch to send, if there is anything to send. */
  method CreateJSONMergePatch(order: KeyOrder, existing: Json, expected: Json) returns (patch: Option<seq<Op>>)
    ensures var ops := Sent(order, existing, expected);
            patch == if ops == [] then None else Some(ops)
  {
    var ops := Diff(order, Seen(existing), Seen(expected));
    var patchOps: seq<Op> := [];
    ghost var rest := ops;
    for i := 0 to |ops|
      invariant rest == ops[i..] && patchOps + Filter(rest) == Filter(ops)
    {
      Assoc(patchOps, [ops[i]], Filter(rest[1..]));
      if ops[i].kind != Remove && (ops[i].kind != Add || ops[i].value != Null) {
        patchOps := patchOps + [ops[i]];
      }
      rest := rest[1..];
    }
    assert patchOps == Filter(ops);
    patch := if |patchOps| == 0 then None else Some(patchOps);
  }

  // ---- applying a patch ----

  function ApplyOp(doc: Json, op: Op): Option<Json>
    decreases |op.path|
  {
    if op.path == [] then
      if op.kind == Remove then None else Some(op.value)
    else
      var k, rest := op.path[0], op.path[1..];
      match (doc, k)
      case (Obj(f), Field(n)) =>
        if n in f then
          if rest == [] && op.kind == Remove then Some(Obj(f - {n}))
          else Rebuilt(ApplyOp(f[n], op.(path := rest)), v => Obj(f[n := v]))
        else if rest == [] && op.kind == Add then Some(Obj(f[n := op.value]))
        else None
      case (Arr(items), Index(i)) =>
        if rest == [] && op.kind == Add && i <= |items| then Some(Arr(items[..i] + [op.value] + items[i..]))
        else if i >= |items| then None
        else if rest == [] && op.kind == Remove then Some(Arr(items[..i] + items[i + 1..]))
        else Rebuilt(ApplyOp(items[i], op.(path := rest)), v => Arr(items[i := v]))
      case _ => None
  }

  function Rebuilt(part: Option<Json>, whole: Json -> Json): Option<Json> {
    if part.None? then None else Some(whole(part.value))
  }

  function ApplyAll(doc: Json, ops: seq<Op>): Option<Json>
    decreases |ops|
  {
    if ops == [] then Some(doc)
    else
      var next := ApplyOp(doc, ops[0]);
      if next.None? then None else ApplyAll(next.value, ops[1..])
  }

  // ---- what the patch achieves ----

  /** The elements before the first null. */
  function UpToNull(items: seq<Json>): seq<Json> {
    if items == [] || items[0] == Null then [] else [items[0]] + UpToNull(items[1..])
  }

  predicate AllNull(items: seq<Json>) { items == [] || (items[0] == Null && AllNull(items[1..])) }

  /** No null is followed by a value. */
  predicate NullsLast(items: seq<Json>) {
    items == [] || if items[0] == Null then AllNull(items[1..]) else NullsLast(items[1..])
  }

  /** `b` laid over `a`: nothing of `a` is lost except the values `b` replaces, and a null of
      `b` adds nothing. Lists of scalars are edited without removing anything, other lists laid
      over each other position by position. */
  function Overlay(a: Json, b: Json): Json
    decreases b
  {
    match (a, b)
    case (Obj(fa), Obj(fb)) =>
      Obj(map k | k in fa.Keys + fb.Keys && (k in fa || fb[k] != Null) ::
            if k !in fb then fa[k] else if k in fa then Overlay(fa[k], fb[k]) else fb[k])
    case (Arr(ia), Arr(ib)) =>
      if ScalarsOnly(ia) && ScalarsOnly(ib) then Arr(Edited(ia, ib, |ia|, |ib|))
      else
        Arr(seq(|ia|, i requires 0 <= i < |ia| => if i < |ib| then Overlay(ia[i], ib[i]) else ia[i])
            + UpToNull(ib[Shorter(ia, ib)..]))
    case _ => b
  }

  /** What a patch can do. In no list, unless both have only scalars, may a live null meet a
      value, whose addition would be inserted before it, or a null that is to be appended be
      followed by a value, whose addition would lie past the end. */
  predicate Patchable(a: Json, b: Json)
    decreases b
  {
    match (a, b)
    case (Obj(fa), Obj(fb)) => forall k :: k in fa && k in fb ==> Patchable(fa[k], fb[k])
    case (Arr(ia), Arr(ib)) =>
      || (ScalarsOnly(ia) && ScalarsOnly(ib))
      || (NullsLast(ib[Shorter(ia, ib)..])
          && forall i :: 0 <= i < |ia| && i < |ib| ==> (ia[i] == Null ==> ib[i] == Null) && Patchable(ia[i], ib[i]))
    case _ => true
  }

  /** Everything `b` asks for is in `a`, apart from nulls that are absent; in a list of scalars
      in the order asked for. */
  predicate Covers(a: Json, b: Json)
    decreases b
  {
    match b
    case Obj(fb) =>
      a.Obj? && forall k :: k in fb ==> if k in a.fields then Covers(a.fields[k], fb[k]) else fb[k] == Null
    case Arr(ib) =>
      && a.Arr?
      && if ScalarsOnly(a.items) && ScalarsOnly(ib) then Subsequence(ib, a.items)
         else forall i :: 0 <= i < |ib| ==> if i < |a.items| then Covers(a.items[i], ib[i]) else ib[i] == Null
    case _ => a == b
  }

  /** Fields and elements only the live object has are kept as they are, at every depth; of a
      list of scalars none is dropped unless an expected one takes its place. */
  predicate KeepsRest(r: Json, a: Json, b: Json)
    decreases b
  {
    match (a, b)
    case (Obj(fa), Obj(fb)) =>
      r.Obj? && forall k :: k in fa ==>
        k in r.fields && if k in fb then KeepsRest(r.fields[k], fa[k], fb[k]) else r.fields[k] == fa[k]
    case (Arr(ia), Arr(ib)) =>
      if ScalarsOnly(ia) && ScalarsOnly(ib) then r.Arr? && Woven(r.items, ia, ib)
      else
        r.Arr? && |r.items| >= |ia|
        && forall i :: 0 <= i < |ia| ==> if i < |ib| then KeepsRest(r.items[i], ia[i], ib[i]) else r.items[i] == ia[i]
    case _ => true
  }
}
