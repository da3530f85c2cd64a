/** The whole difference of two documents, removals included, turns the first into the second,
    unless a live null of a list meets a value. */
module DiffMeaning {
  import opened Wrappers
  import opened Seqs
  import opened EditDistance
  import opened JsonPatch
  import opened PatchApplication

  function Turned(order: KeyOrder, a: Json, b: Json): Option<Json> { ApplyAll(a, Diff(order, a, b)) }

  // ---- where the operations are ----

  lemma {:induction false} DeepSum(x: seq<Op>, y: seq<Op>)
    requires Deep(x) && Deep(y)
    ensures Deep(x + y)
  {
  }

  lemma {:induction false} RemovesAreDeep(keys: seq<string>, fb: map<string, Json>)
    ensures Deep(Removes(keys, fb))
  {
    if keys != [] { RemovesAreDeep(keys[1..], fb); }
  }

  lemma {:induction false} RemovesFromAreDeep(n: nat, len: nat)
    requires n <= len
    ensures Deep(RemovesFrom(n, len))
    decreases len
  {
    if n != len { RemovesFromAreDeep(n, len - 1); }
  }

  lemma {:induction false} DiffStaysInside(order: KeyOrder, a: Json, b: Json)
    requires a != Null || b == Null
    ensures Inner(Diff(order, a, b))
  {
    match (a, b)
    case (Obj(fa), Obj(fb)) =>
      FieldsAreDeep(order, fa, b, order(fb));
      RemovesAreDeep(order(fa), fb);
      DeepSum(DiffFields(order, fa, b, order(fb)), Removes(order(fa), fb));
    case (Arr(ia), Arr(ib)) =>
      if ScalarsOnly(ia) && ScalarsOnly(ib) {
        EditsAreDeep(ia, ib, |ia|, |ib|);
      } else {
        var n := Shorter(ia, ib);
        RemovesFromAreDeep(n, |ia|);
        AddsAreDeep(n, ib[n..]);
        ItemsAreDeep(order, ia, b, n);
        DeepSum(RemovesFrom(n, |ia|), AddsFrom(n, ib[n..]));
        DeepSum(RemovesFrom(n, |ia|) + AddsFrom(n, ib[n..]), DiffItems(order, ia, b, n));
      }
    case _ =>
  }

  lemma {:induction false} NothingRemovedAtTop(order: KeyOrder, a: Json, b: Json)
    ensures forall i :: 0 <= i < |Diff(order, a, b)| && Diff(order, a, b)[i].kind == Remove ==>
              Diff(order, a, b)[i].path != []
  {
    if a != Null || b == Null { DiffStaysInside(order, a, b); }
  }

  // ---- lists ----

  lemma {:induction false} RemoveTail(items: seq<Json>, n: nat, len: nat)
    requires n <= len == |items|
    ensures ApplyAll(Arr(items), RemovesFrom(n, len)) == Some(Arr(items[..n]))
    decreases len
  {
    if n == len {
      assert items[..n] == items;
    } else {
      var init := items[..len - 1];
      ApplyCons(Arr(items), Op(Remove, [Index(len - 1)], Null), RemovesFrom(n, len - 1));
      assert items[..len - 1] + items[len..] == init && init[..n] == items[..n];
      RemoveTail(init, n, len - 1);
    }
  }

  lemma {:induction false} AddTail(items: seq<Json>, n: nat, adds: seq<Json>)
    requires n == |items|
    ensures ApplyAll(Arr(items), AddsFrom(n, adds)) == Some(Arr(items + adds))
    decreases |adds|
  {
    if adds == [] {
      assert items + adds == items;
    } else {
      ApplyCons(Arr(items), Op(Add, [Index(n)], adds[0]), AddsFrom(n + 1, adds[1..]));
      AddAtEnd(items, adds[0]);
      AddTail(items + [adds[0]], n + 1, adds[1..]);
      assert (items + [adds[0]]) + adds[1..] == items + adds;
    }
  }

  /** What is left to do when the list has its new length. */
  lemma {:induction false} ListResized(order: KeyOrder, ia: seq<Json>, ib: seq<Json>)
    requires !(ScalarsOnly(ia) && ScalarsOnly(ib))
    ensures var n := Shorter(ia, ib);
            Turned(order, Arr(ia), Arr(ib)) == ApplyAll(Arr(ia[..n] + ib[n..]), DiffItems(order, ia, Arr(ib), n))
  {
    var n := Shorter(ia, ib);
    var x, y, z := RemovesFrom(n, |ia|), AddsFrom(n, ib[n..]), DiffItems(order, ia, Arr(ib), n);
    RemoveTail(ia, n, |ia|);
    AddTail(ia[..n], n, ib[n..]);
    ApplyConcat(Arr(ia), x, y);
    ApplyConcat(Arr(ia), x + y, z);
  }

  /** Each of the first `n` elements becomes what its own difference makes of it. */
  ghost predicate ItemsTurned(order: KeyOrder, items: seq<Json>, ia: seq<Json>, ib: seq<Json>, n: nat, r: Option<Json>)
    requires n <= |ia| && n <= |ib| && n <= |items|
  {
    if r.None? then exists i :: 0 <= i < n && Turned(order, ia[i], ib[i]).None?
    else
      && r.value.Arr? && |r.value.items| == |items|
      && (forall i :: 0 <= i < n ==> Turned(order, ia[i], ib[i]) == Some(r.value.items[i]))
      && forall i :: n <= i < |items| ==> r.value.items[i] == items[i]
  }

  lemma {:induction false} TurnItems(order: KeyOrder, items: seq<Json>, ia: seq<Json>, b: Json, n: nat)
    requires b.Arr? && n <= |ia| && n <= |b.items| && n <= |items|
    requires items[..n] == ia[..n] && !NullMeetsValue(ia, b.items, n)
    ensures ItemsTurned(order, items, ia, b.items, n, ApplyAll(Arr(items), DiffItems(order, ia, b, n)))
    decreases n
  {
    if n > 0 {
      var m := n - 1;
      var before, last := DiffItems(order, ia, b, m), Diff(order, ia[m], b.items[m]);
      AgreeBelow(items, ia, n);
      TurnItems(order, items, ia, b, m);
      ApplyConcat(Arr(items), before, Under(Index(m), last));
      DiffStaysInside(order, ia[m], b.items[m]);
      var mid := ApplyAll(Arr(items), before);
      if mid.Some? { ApplyUnderIndex(mid.value.items, m, last); }
    }
  }

  lemma {:induction false} GrowsWithFilter(ops: seq<Op>)
    ensures Grows(ops) >= Grows(Filter(ops))
  {
    if ops != [] {
      var rest := Filter(ops[1..]);
      GrowsWithFilter(ops[1..]);
      assert ([ops[0]] + rest)[1..] == rest && [] + rest == rest;
    }
  }

  lemma {:induction false} UnderIsDeeper(k: Key, ops: seq<Op>)
    requires forall i :: 0 <= i < |ops| && ops[i].kind == Remove ==> ops[i].path != []
    ensures forall i :: 0 <= i < |Under(k, ops)| && Under(k, ops)[i].kind == Remove ==> |Under(k, ops)[i].path| > 1
  {
    if ops != [] { UnderIsDeeper(k, ops[1..]); }
  }

  lemma {:induction false} ItemsRemoveDeeper(order: KeyOrder, ia: seq<Json>, b: Json, n: nat)
    requires b.Arr? && n <= |ia| && n <= |b.items|
    ensures forall i :: 0 <= i < |DiffItems(order, ia, b, n)| && DiffItems(order, ia, b, n)[i].kind == Remove ==>
              |DiffItems(order, ia, b, n)[i].path| > 1
    decreases n
  {
    if n > 0 {
      ItemsRemoveDeeper(order, ia, b, n - 1);
      NothingRemovedAtTop(order, ia[n - 1], b.items[n - 1]);
      UnderIsDeeper(Index(n - 1), Diff(order, ia[n - 1], b.items[n - 1]));
    }
  }

  /** Where a live null meets a value the list becomes too long. */
  lemma {:induction false} TooLong(order: KeyOrder, ia: seq<Json>, ib: seq<Json>)
    requires !(ScalarsOnly(ia) && ScalarsOnly(ib)) && NullMeetsValue(ia, ib, Shorter(ia, ib))
    ensures Turned(order, Arr(ia), Arr(ib)) != Some(Arr(ib))
  {
    var n := Shorter(ia, ib);
    var ops := DiffItems(order, ia, Arr(ib), n);
    ListResized(order, ia, ib);
    NullMeetingGrows(order, ia, Arr(ib), n);
    GrowsWithFilter(ops);
    ItemsAreDeep(order, ia, Arr(ib), n);
    ItemsRemoveDeeper(order, ia, Arr(ib), n);
    ListGrows(ia[..n] + ib[n..], ops);
  }

  lemma {:induction false} ListTurns(order: KeyOrder, ia: seq<Json>, ib: seq<Json>)
    requires !(ScalarsOnly(ia) && ScalarsOnly(ib)) && !NullMeetsValue(ia, ib, Shorter(ia, ib))
    ensures Turned(order, Arr(ia), Arr(ib)) == Some(Arr(ib))
       <==> forall i :: 0 <= i < Shorter(ia, ib) ==> Turned(order, ia[i], ib[i]) == Some(ib[i])
  {
    var n := Shorter(ia, ib);
    var items := ia[..n] + ib[n..];
    ListResized(order, ia, ib);
    assert items[..n] == ia[..n];
    TurnItems(order, items, ia, Arr(ib), n);
    var r := ApplyAll(Arr(items), DiffItems(order, ia, Arr(ib), n));
    if r.Some? { SamePrefixIff(r.value.items, ib, n); }
  }

  // ---- lists of scalars ----

  lemma {:induction false} TurnEdit(ia: seq<Json>, i: nat, rest: seq<Json>, op: Op, later: seq<Op>)
    requires i <= |ia| && (op.kind != Add ==> i > 0)
    requires op.path == [Index(if op.kind == Add then i else i - 1)]
    ensures ApplyAll(Arr(ia[..i] + rest), [op] + later)
            == ApplyAll(Arr(ia[..if op.kind == Add then i else i - 1]
                            + if op.kind == Remove then rest else [op.value] + rest), later)
  {
    var items := ia[..i] + rest;
    ApplyCons(Arr(items), op, later);
    EditOne(ia, i, rest, op.value);
    if op.kind == Remove { assert items[..i - 1] == ia[..i - 1] && items[i..] == rest; }
  }

  /** The edits of the first `i` and `j` elements, with `rest` behind them. */
  lemma {:induction false} TurnScalars(ia: seq<Json>, ib: seq<Json>, i: nat, j: nat, rest: seq<Json>)
    requires i <= |ia| && j <= |ib|
    ensures ApplyAll(Arr(ia[..i] + rest), Edits(ia, ib, i, j)) == Some(Arr(ib[..j] + rest))
    decreases i + j
  {
    if i + j == 0 {
      assert ia[..0] + rest == rest && ib[..0] + rest == rest;
      return;
    }
    if j > 0 { assert ib[..j - 1] + ([ib[j - 1]] + rest) == ib[..j] + rest; }
    match LastEdit(ia, ib, i, j)
    case Drop =>
      TurnEdit(ia, i, rest, Op(Remove, [Index(i - 1)], Null), Edits(ia, ib, i - 1, j));
      TurnScalars(ia, ib, i - 1, j, rest);
    case Insert =>
      TurnEdit(ia, i, rest, Op(Add, [Index(i)], ib[j - 1]), Edits(ia, ib, i, j - 1));
      TurnScalars(ia, ib, i, j - 1, [ib[j - 1]] + rest);
    case Change =>
      TurnEdit(ia, i, rest, Op(Replace, [Index(i - 1)], ib[j - 1]), Edits(ia, ib, i - 1, j - 1));
      TurnScalars(ia, ib, i - 1, j - 1, [ib[j - 1]] + rest);
    case Keep =>
      assert ia[..i] + rest == ia[..i - 1] + ([ia[i - 1]] + rest);
      TurnScalars(ia, ib, i - 1, j - 1, [ib[j - 1]] + rest);
  }

  // ---- objects ----

  /** `r` is `f` without the fields `keys` that `fb` lacks. */
  ghost predicate FieldsRemoved(f: map<string, Json>, keys: seq<string>, fb: map<string, Json>, r: Option<Json>) {
    && r.Some? && r.value.Obj?
    && forall k ::
      && (k in r.value.fields <==> k in f && (k in keys ==> k in fb))
      && (k in r.value.fields ==> r.value.fields[k] == f[k])
  }

  lemma {:induction false} RemoveFields(f: map<string, Json>, keys: seq<string>, fb: map<string, Json>)
    requires NoDuplicates(keys) && forall k :: k in keys ==> k in f
    ensures FieldsRemoved(f, keys, fb, ApplyAll(Obj(f), Removes(keys, fb)))
    decreases |keys|
  {
    if keys != [] {
      var k, rest := keys[0], keys[1..];
      HeadOfDistinct(keys);
      assert keys == [k] + rest;
      if k !in fb {
        RemoveFields(f - {k}, rest, fb);
        ApplyCons(Obj(f), Op(Remove, [Field(k)], Null), Removes(rest, fb));
      } else {
        RemoveFields(f, rest, fb);
        assert [] + Removes(rest, fb) == Removes(rest, fb);
      }
    }
  }

  /** What the differences of the fields `keys` make of field `k`. */
  ghost predicate FieldTurned(order: KeyOrder, f: map<string, Json>, fa: map<string, Json>, fb: map<string, Json>,
                              keys: seq<string>, r: map<string, Json>, k: string)
  {
    if k in keys && k in fb then k in r && if k in fa then Turned(order, fa[k], fb[k]) == Some(r[k]) else r[k] == fb[k]
    else (k in r <==> k in f) && (k in f ==> r[k] == f[k])
  }

  ghost predicate FieldsTurned(order: KeyOrder, f: map<string, Json>, fa: map<string, Json>, fb: map<string, Json>,
                               keys: seq<string>, r: Option<Json>)
  {
    if r.None? then exists k :: k in keys && k in fa && k in fb && Turned(order, fa[k], fb[k]).None?
    else r.value.Obj? && forall k :: FieldTurned(order, f, fa, fb, keys, r.value.fields, k)
  }

  lemma {:induction false} TurnField(order: KeyOrder, f: map<string, Json>, fa: map<string, Json>, b: Json, k: string)
    requires b.Obj? && (k in fa ==> k in f && f[k] == fa[k]) && (k !in fa ==> k !in f)
    ensures FieldsTurned(order, f, fa, b.fields, [k], ApplyAll(Obj(f), FieldOps(order, fa, b, k)))
  {
    if k in b.fields && k in fa {
      var ops := Diff(order, fa[k], b.fields[k]);
      NothingRemovedAtTop(order, fa[k], b.fields[k]);
      ApplyUnderField(f, k, ops);
      assert k in [k];
    } else if k in b.fields {
      var op := Op(Add, [Field(k)], b.fields[k]);
      ApplyCons(Obj(f), op, []);
      assert [op] + [] == [op];
      assert ApplyAll(Obj(f), FieldOps(order, fa, b, k)) == Some(Obj(f[k := b.fields[k]]));
    }
  }

  lemma {:induction false} TurnFields(order: KeyOrder, f: map<string, Json>, fa: map<string, Json>, b: Json,
                                      keys: seq<string>)
    requires b.Obj? && NoDuplicates(keys) && Pending(f, fa, keys)
    ensures FieldsTurned(order, f, fa, b.fields, keys, ApplyAll(Obj(f), DiffFields(order, fa, b, keys)))
    decreases |keys|
  {
    if keys != [] {
      var k, rest := keys[0], keys[1..];
      HeadOfDistinct(keys);
      assert keys == [k] + rest;
      assert DiffFields(order, fa, b, keys) == FieldOps(order, fa, b, k) + DiffFields(order, fa, b, rest);
      ApplyConcat(Obj(f), FieldOps(order, fa, b, k), DiffFields(order, fa, b, rest));
      TurnField(order, f, fa, b, k);
      var g := ApplyAll(Obj(f), FieldOps(order, fa, b, k));
      if g.Some? {
        var gf := g.value.fields;
        forall x | x in rest ensures (x in gf <==> x in fa) && (x in fa ==> gf[x] == fa[x]) {
          assert FieldTurned(order, f, fa, b.fields, [k], gf, x);
        }
        TurnFields(order, gf, fa, b, rest);
        var r := ApplyAll(g.value, DiffFields(order, fa, b, rest));
        if r.Some? {
          forall x ensures FieldTurned(order, f, fa, b.fields, keys, r.value.fields, x) {
            assert FieldTurned(order, f, fa, b.fields, [k], gf, x);
            assert FieldTurned(order, gf, fa, b.fields, rest, r.value.fields, x);
          }
        }
      }
    }
  }

  /** When all fields have been turned and the others removed. */
  lemma {:induction false} TurnedFields(order: KeyOrder, fa: map<string, Json>, fb: map<string, Json>,
                                        keys: seq<string>, f: map<string, Json>, gone: seq<string>, r: Option<Json>)
    requires IsOrder(keys, fb.Keys) && IsOrder(gone, fa.Keys) && FieldsRemoved(f, gone, fb, r)
    requires forall k :: FieldTurned(order, fa, fa, fb, keys, f, k)
    ensures r == Some(Obj(fb)) <==> forall k :: k in fa && k in fb ==> Turned(order, fa[k], fb[k]) == Some(fb[k])
  {
    var g := r.value.fields;
    forall k
      ensures k in g <==> k in fb
      ensures k in fa && k in fb ==> Turned(order, fa[k], fb[k]) == Some(g[k])
      ensures k !in fa && k in fb ==> g[k] == fb[k]
    {
      assert FieldTurned(order, fa, fa, fb, keys, f, k);
    }
    assert g == fb <==> forall k :: k in fa && k in fb ==> g[k] == fb[k];
  }

  lemma {:induction false} ObjectTurns(order: KeyOrder, fa: map<string, Json>, fb: map<string, Json>)
    requires OrdersKeys(order)
    ensures Turned(order, Obj(fa), Obj(fb)) == Some(Obj(fb))
       <==> forall k :: k in fa && k in fb ==> Turned(order, fa[k], fb[k]) == Some(fb[k])
  {
    var fields, removes := DiffFields(order, fa, Obj(fb), order(fb)), Removes(order(fa), fb);
    ApplyConcat(Obj(fa), fields, removes);
    TurnFields(order, fa, fa, Obj(fb), order(fb));
    var mid := ApplyAll(Obj(fa), fields);
    if mid.Some? {
      var f := mid.value.fields;
      forall k | k in order(fa) ensures k in f { assert FieldTurned(order, fa, fa, fb, order(fb), f, k); }
      RemoveFields(f, order(fa), fb);
      TurnedFields(order, fa, fb, order(fb), f, order(fa), ApplyAll(mid.value, removes));
    }
  }

  // ---- the meaning of the difference ----

  /** For any two documents: the whole difference turns the first into the second exactly if no
      live null of a list meets a value, at any depth. */
  lemma {:induction false} DifferenceTurnsIff(order: KeyOrder, a: Json, b: Json)
    requires OrdersKeys(order)
    ensures ApplyAll(a, Diff(order, a, b)) == Some(b) <==> NoNullMeets(a, b)
    decreases b
  {
    match (a, b)
    case (Obj(fa), Obj(fb)) =>
      forall k | k in fa && k in fb
        ensures Turned(order, fa[k], fb[k]) == Some(fb[k]) <==> NoNullMeets(fa[k], fb[k])
      {
        DifferenceTurnsIff(order, fa[k], fb[k]);
      }
      ObjectTurns(order, fa, fb);
    case (Arr(ia), Arr(ib)) =>
      if ScalarsOnly(ia) && ScalarsOnly(ib) {
        TurnScalars(ia, ib, |ia|, |ib|, []);
        assert ia[..|ia|] + [] == ia && ib[..|ib|] + [] == ib;
      } else if NullMeetsValue(ia, ib, Shorter(ia, ib)) {
        TooLong(order, ia, ib);
      } else {
        forall i | 0 <= i < Shorter(ia, ib)
          ensures Turned(order, ia[i], ib[i]) == Some(ib[i]) <==> NoNullMeets(ia[i], ib[i])
        {
          DifferenceTurnsIff(order, ia[i], ib[i]);
        }
        ListTurns(order, ia, ib);
      }
    case _ => AtomTurns(order, a, b);
  }

  lemma {:induction false} AtomTurns(order: KeyOrder, a: Json, b: Json)
    requires !(a.Obj? && b.Obj?) && !(a.Arr? && b.Arr?)
    ensures Turned(order, a, b) == Some(b)
  {
    var ops := Diff(order, a, b);
    if ops != [] {
      ApplyCons(a, ops[0], []);
      assert [ops[0]] + [] == ops;
    }
  }

  // ---- when an operation applies ----

  /** The value a path leads to, if there is one. */
  function ValueAt(doc: Json, path: seq<Key>): Option<Json>
    decreases |path|
  {
    if path == [] then Some(doc)
    else match (doc, path[0])
      case (Obj(f), Field(n)) => if n in f then ValueAt(f[n], path[1..]) else None
      case (Arr(items), Index(i)) => if i < |items| then ValueAt(items[i], path[1..]) else None
      case _ => None
  }

  /** The value can get a member under the key. */
  predicate TakesMember(parent: Json, k: Key) {
    match (parent, k)
    case (Obj(_), Field(_)) => true
    case (Arr(items), Index(i)) => i <= |items|
    case _ => false
  }

  /** A value is replaced or removed where there is one, but the document itself is not removed, and
      added where there is something to add it to. */
  lemma {:induction false} OpAppliesIff(doc: Json, op: Op)
    ensures ApplyOp(doc, op).Some? <==>
              match op.kind
              case Remove => op.path != [] && ValueAt(doc, op.path).Some?
              case Replace => ValueAt(doc, op.path).Some?
              case Add =>
                op.path == [] || var last := |op.path| - 1;
                  var parent := ValueAt(doc, op.path[..last]); parent.Some? && TakesMember(parent.value, op.path[last])
    decreases |op.path|
  {
    if |op.path| > 1 {
      var deeper := op.(path := op.path[1..]);
      var last := |op.path| - 1;
      assert op.path[..last][1..] == deeper.path[..last - 1] && op.path[..last][0] == op.path[0];
      match (doc, op.path[0])
      case (Obj(f), Field(n)) => if n in f { OpAppliesIff(f[n], deeper); }
      case (Arr(items), Index(i)) => if i < |items| { OpAppliesIff(items[i], deeper); }
      case _ =>
    }
  }
}
