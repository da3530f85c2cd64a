/** Applying a filtered patch lays the expected document over the live one. */
module PatchApplication {
  import opened Wrappers
  import opened Seqs
  import opened EditDistance
  import opened JsonPatch

  // ---- lemmas about operation lists ----

  lemma {:induction false} FilterConcat(x: seq<Op>, y: seq<Op>)
    ensures Filter(x + y) == Filter(x) + Filter(y)
  {
    if x == [] {
      assert x + y == y;
    } else {
      assert (x + y)[1..] == x[1..] + y;
      FilterConcat(x[1..], y);
      Assoc(if Relevant(x[0]) then [x[0]] else [], Filter(x[1..]), Filter(y));
    }
  }

  lemma {:induction false} ApplyConcat(doc: Json, x: seq<Op>, y: seq<Op>)
    ensures ApplyAll(doc, x + y) ==
            var mid := ApplyAll(doc, x); if mid.None? then None else ApplyAll(mid.value, y)
    decreases |x|
  {
    if x == [] {
      assert x + y == y;
    } else {
      assert (x + y)[1..] == x[1..] + y;
      var next := ApplyOp(doc, x[0]);
      if next.Some? { ApplyConcat(next.value, x[1..], y); }
    }
  }

  lemma {:induction false} FilterUnder(k: Key, ops: seq<Op>)
    ensures Filter(Under(k, ops)) == Under(k, Filter(ops))
  {
    if ops != [] {
      FilterUnder(k, ops[1..]);
      var head := [ops[0]];
      if Relevant(ops[0]) {
        assert (head + Filter(ops[1..]))[1..] == Filter(ops[1..]);
      } else {
        assert [] + Filter(ops[1..]) == Filter(ops[1..]);
      }
    }
  }

  lemma {:induction false} FilterRemoves(keys: seq<string>, fb: map<string, Json>)
    ensures Filter(Removes(keys, fb)) == []
  {
    if keys != [] {
      FilterRemoves(keys[1..], fb);
      assert [] + Removes(keys[1..], fb) == Removes(keys[1..], fb);
    }
  }

  lemma {:induction false} FilterRemovesFrom(n: nat, len: nat)
    requires n <= len
    ensures Filter(RemovesFrom(n, len)) == []
    decreases len
  {
    if n != len { FilterRemovesFrom(n, len - 1); }
  }

  lemma UnderHead(k: Key, ops: seq<Op>)
    requires ops != []
    ensures Under(k, ops)[0] == ops[0].(path := [k] + ops[0].path)
    ensures Under(k, ops)[0].path[0] == k && Under(k, ops)[0].path[1..] == ops[0].path
    ensures Under(k, ops)[1..] == Under(k, ops[1..])
  {
  }

  /** Nothing is removed or added at the very top. */
  predicate Inner(ops: seq<Op>) { forall i :: 0 <= i < |ops| && ops[i].path == [] ==> ops[i].kind == Replace }

  lemma {:induction false} ApplyUnderField(f: map<string, Json>, n: string, ops: seq<Op>)
    requires n in f && forall i :: 0 <= i < |ops| && ops[i].kind == Remove ==> ops[i].path != []
    ensures ApplyAll(Obj(f), Under(Field(n), ops)) ==
            var v := ApplyAll(f[n], ops); if v.None? then None else Some(Obj(f[n := v.value]))
    decreases |ops|
  {
    if ops == [] {
      assert f[n := f[n]] == f;
    } else {
      var op := ops[0];
      UnderHead(Field(n), ops);
      assert op.(path := [Field(n)] + op.path).(path := op.path) == op;
      var next := ApplyOp(f[n], op);
      if next.Some? {
        var g := f[n := next.value];
        ApplyUnderField(g, n, ops[1..]);
        var last := ApplyAll(next.value, ops[1..]);
        assert last.Some? ==> g[n := last.value] == f[n := last.value];
      }
    }
  }

  lemma {:induction false} ApplyUnderIndex(items: seq<Json>, i: nat, ops: seq<Op>)
    requires i < |items| && Inner(ops)
    ensures ApplyAll(Arr(items), Under(Index(i), ops)) ==
            var v := ApplyAll(items[i], ops); if v.None? then None else Some(Arr(items[i := v.value]))
    decreases |ops|
  {
    if ops == [] {
      assert items[i := items[i]] == items;
    } else {
      var op := ops[0];
      UnderHead(Index(i), ops);
      assert op.(path := [Index(i)] + op.path).(path := op.path) == op;
      var next := ApplyOp(items[i], op);
      if next.Some? {
        var other := items[i := next.value];
        ApplyUnderIndex(other, i, ops[1..]);
        var last := ApplyAll(next.value, ops[1..]);
        assert last.Some? ==> other[i := last.value] == items[i := last.value];
      }
    }
  }

  predicate Deep(ops: seq<Op>) { forall i :: 0 <= i < |ops| ==> ops[i].path != [] }

  lemma {:induction false} UnderIsDeep(k: Key, ops: seq<Op>)
    ensures Deep(Under(k, ops))
  {
    if ops != [] { UnderIsDeep(k, ops[1..]); }
  }

  lemma {:induction false} FieldsAreDeep(order: KeyOrder, fa: map<string, Json>, b: Json, keys: seq<string>)
    requires b.Obj?
    ensures Deep(DiffFields(order, fa, b, keys))
    decreases |keys|
  {
    if keys != [] {
      FieldsAreDeep(order, fa, b, keys[1..]);
      if keys[0] in b.fields && keys[0] in fa {
        UnderIsDeep(Field(keys[0]), Diff(order, fa[keys[0]], b.fields[keys[0]]));
      }
    }
  }

  lemma {:induction false} ItemsAreDeep(order: KeyOrder, ia: seq<Json>, b: Json, n: nat)
    requires b.Arr? && n <= |ia| && n <= |b.items|
    ensures Deep(DiffItems(order, ia, b, n))
    decreases n
  {
    if n > 0 {
      ItemsAreDeep(order, ia, b, n - 1);
      UnderIsDeep(Index(n - 1), Diff(order, ia[n - 1], b.items[n - 1]));
    }
  }

  lemma {:induction false} AddsAreDeep(n: nat, items: seq<Json>)
    ensures Deep(AddsFrom(n, items))
    decreases |items|
  {
    if items != [] { AddsAreDeep(n + 1, items[1..]); }
  }

  lemma {:induction false} EditsAreDeep(ia: seq<Json>, ib: seq<Json>, i: nat, j: nat)
    requires i <= |ia| && j <= |ib|
    ensures Deep(Edits(ia, ib, i, j))
    decreases i + j
  {
    if i + j > 0 {
      match LastEdit(ia, ib, i, j)
      case Drop => EditsAreDeep(ia, ib, i - 1, j);
      case Insert => EditsAreDeep(ia, ib, i, j - 1);
      case _ => EditsAreDeep(ia, ib, i - 1, j - 1);
    }
  }

  lemma {:induction false} FilterOfDeep(ops: seq<Op>)
    requires Deep(ops)
    ensures Inner(Filter(ops)) && Deep(Filter(ops))
  {
    if ops != [] { FilterOfDeep(ops[1..]); }
  }

  lemma {:induction false} FilterDropsFirst(x: seq<Op>, y: seq<Op>, z: seq<Op>)
    requires Filter(x) == []
    ensures Filter(x + y + z) == Filter(y) + Filter(z)
  {
    FilterConcat(x + y, z);
    FilterConcat(x, y);
    assert [] + Filter(y) == Filter(y);
  }

  /** The operations that matter for an array: additions at the end, then element by element. */
  lemma {:induction false} FilteredArrayDiff(order: KeyOrder, ia: seq<Json>, ib: seq<Json>)
    requires !(ScalarsOnly(ia) && ScalarsOnly(ib))
    ensures var n := Shorter(ia, ib);
            Filter(Diff(order, Arr(ia), Arr(ib)))
              == Filter(AddsFrom(n, ib[n..])) + Filter(DiffItems(order, ia, Arr(ib), n))
  {
    var n := Shorter(ia, ib);
    var x, y, z := RemovesFrom(n, |ia|), AddsFrom(n, ib[n..]), DiffItems(order, ia, Arr(ib), n);
    FilterRemovesFrom(n, |ia|);
    FilterDropsFirst(x, y, z);
    assert Diff(order, Arr(ia), Arr(ib)) == x + y + z;
  }

  /** Likewise for an object: what is removed is filtered out. */
  lemma {:induction false} FilteredObjectDiff(order: KeyOrder, fa: map<string, Json>, b: Json)
    requires b.Obj?
    ensures Filter(Diff(order, Obj(fa), b)) == Filter(DiffFields(order, fa, b, order(b.fields)))
  {
    var x, y := DiffFields(order, fa, b, order(b.fields)), Removes(order(fa), b.fields);
    FilterConcat(x, y);
    FilterRemoves(order(fa), b.fields);
    assert Filter(x) + [] == Filter(x);
  }

  lemma {:induction false} DiffIsInner(order: KeyOrder, a: Json, b: Json)
    requires a != Null || b == Null
    ensures Inner(Filter(Diff(order, a, b)))
  {
    match (a, b)
    case (Obj(fa), Obj(fb)) =>
      FieldsAreDeep(order, fa, b, order(fb));
      FilterOfDeep(DiffFields(order, fa, b, order(fb)));
      FilteredObjectDiff(order, fa, b);
    case (Arr(ia), Arr(ib)) =>
      if ScalarsOnly(ia) && ScalarsOnly(ib) {
        EditsAreDeep(ia, ib, |ia|, |ib|);
        FilterOfDeep(Edits(ia, ib, |ia|, |ib|));
      } else {
        var n := Shorter(ia, ib);
        AddsAreDeep(n, ib[n..]);
        ItemsAreDeep(order, ia, b, n);
        FilterOfDeep(AddsFrom(n, ib[n..]));
        FilterOfDeep(DiffItems(order, ia, b, n));
        FilteredArrayDiff(order, ia, ib);
      }
    case _ =>
  }

  lemma {:induction false} FilterHasNoRemove(ops: seq<Op>)
    ensures forall i :: 0 <= i < |Filter(ops)| ==> Filter(ops)[i].kind != Remove
  {
    if ops != [] { FilterHasNoRemove(ops[1..]); }
  }

  // ---- lists of scalars ----

  lemma {:induction false} FilterCons(op: Op, ops: seq<Op>)
    ensures Filter([op] + ops) == (if Relevant(op) then [op] else []) + Filter(ops)
    ensures [] + Filter(ops) == Filter(ops)
  {
    HeadOfSum([op], ops);
    assert [] + ops == ops;
  }

  lemma {:induction false} ApplyCons(doc: Json, op: Op, ops: seq<Op>)
    ensures ApplyAll(doc, [op] + ops) == var next := ApplyOp(doc, op);
            if next.None? then None else ApplyAll(next.value, ops)
  {
    HeadOfSum([op], ops);
    assert [] + ops == ops;
  }

  lemma {:induction false} EditOne(ia: seq<Json>, i: nat, rest: seq<Json>, x: Json)
    requires i <= |ia|
    ensures ApplyOp(Arr(ia[..i] + rest), Op(Add, [Index(i)], x)) == Some(Arr(ia[..i] + ([x] + rest)))
    ensures i > 0 ==> ia[..i] + rest == ia[..i - 1] + ([ia[i - 1]] + rest)
    ensures i > 0 ==>
              ApplyOp(Arr(ia[..i] + rest), Op(Replace, [Index(i - 1)], x)) == Some(Arr(ia[..i - 1] + ([x] + rest)))
  {
    var items := ia[..i] + rest;
    assert items[..i] == ia[..i] && items[i..] == rest;
    Assoc(ia[..i], [x], rest);
    if i > 0 {
      assert items[i - 1 := x] == ia[..i - 1] + ([x] + rest);
    }
  }

  lemma {:induction false} ApplyEdit(ia: seq<Json>, i: nat, rest: seq<Json>, op: Op, later: seq<Op>)
    requires i <= |ia| && op.value.Scalar?
    requires (op.kind == Add && op.path == [Index(i)]) || (i > 0 && op.kind == Replace && op.path == [Index(i - 1)])
    ensures ApplyAll(Arr(ia[..i] + rest), Filter([op] + later))
            == ApplyAll(Arr(ia[..if op.kind == Add then i else i - 1] + ([op.value] + rest)), Filter(later))
  {
    FilterCons(op, later);
    ApplyCons(Arr(ia[..i] + rest), op, Filter(later));
    EditOne(ia, i, rest, op.value);
  }

  /** The edits of the first `i` and `j` elements, with `rest` behind them. */
  ghost predicate EditsApply(ia: seq<Json>, ib: seq<Json>, i: nat, j: nat, rest: seq<Json>)
    requires i <= |ia| && j <= |ib|
  {
    ApplyAll(Arr(ia[..i] + rest), Filter(Edits(ia, ib, i, j))) == Some(Arr(Edited(ia, ib, i, j) + rest))
  }

  lemma {:induction false} DropApplies(ia: seq<Json>, ib: seq<Json>, i: nat, j: nat, rest: seq<Json>)
    requires 0 < i <= |ia| && j <= |ib| && LastEdit(ia, ib, i, j).Drop?
    requires ScalarsOnly(ib)
    ensures EditsApply(ia, ib, i, j, rest)
    decreases i + j, 0
  {
    ApplyEdits(ia, ib, i - 1, j, [ia[i - 1]] + rest);
    EditOne(ia, i, rest, Null);
    FilterCons(Op(Remove, [Index(i - 1)], Null), Edits(ia, ib, i - 1, j));
    Assoc(Edited(ia, ib, i - 1, j), [ia[i - 1]], rest);
  }

  lemma {:induction false} InsertApplies(ia: seq<Json>, ib: seq<Json>, i: nat, j: nat, rest: seq<Json>)
    requires i <= |ia| && 0 < j <= |ib| && LastEdit(ia, ib, i, j).Insert? && ScalarsOnly(ib)
    ensures EditsApply(ia, ib, i, j, rest)
    decreases i + j, 0
  {
    ApplyEdits(ia, ib, i, j - 1, [ib[j - 1]] + rest);
    ApplyEdit(ia, i, rest, Op(Add, [Index(i)], ib[j - 1]), Edits(ia, ib, i, j - 1));
    Assoc(Edited(ia, ib, i, j - 1), [ib[j - 1]], rest);
  }

  lemma {:induction false} ChangeApplies(ia: seq<Json>, ib: seq<Json>, i: nat, j: nat, rest: seq<Json>)
    requires 0 < i <= |ia| && 0 < j <= |ib| && ScalarsOnly(ib) && LastEdit(ia, ib, i, j).Change?
    ensures EditsApply(ia, ib, i, j, rest)
    decreases i + j, 0
  {
    ApplyEdits(ia, ib, i - 1, j - 1, [ib[j - 1]] + rest);
    Assoc(Edited(ia, ib, i - 1, j - 1), [ib[j - 1]], rest);
    ApplyEdit(ia, i, rest, Op(Replace, [Index(i - 1)], ib[j - 1]), Edits(ia, ib, i - 1, j - 1));
  }

  lemma {:induction false} KeepApplies(ia: seq<Json>, ib: seq<Json>, i: nat, j: nat, rest: seq<Json>)
    requires 0 < i <= |ia| && 0 < j <= |ib| && ScalarsOnly(ib) && LastEdit(ia, ib, i, j).Keep?
    ensures EditsApply(ia, ib, i, j, rest)
    decreases i + j, 0
  {
    ApplyEdits(ia, ib, i - 1, j - 1, [ib[j - 1]] + rest);
    Assoc(Edited(ia, ib, i - 1, j - 1), [ib[j - 1]], rest);
    EditOne(ia, i, rest, Null);
  }

  lemma {:induction false} NothingToEdit(ia: seq<Json>, ib: seq<Json>, rest: seq<Json>)
    ensures EditsApply(ia, ib, 0, 0, rest)
  {
    assert ia[..0] + rest == [] + rest;
  }

  /** As the edits come from the back, leaving the removals out disturbs no earlier index. */
  lemma {:induction false} ApplyEdits(ia: seq<Json>, ib: seq<Json>, i: nat, j: nat, rest: seq<Json>)
    requires i <= |ia| && j <= |ib| && ScalarsOnly(ib)
    ensures EditsApply(ia, ib, i, j, rest)
    decreases i + j, 1
  {
    if i + j == 0 {
      NothingToEdit(ia, ib, rest);
    } else {
      match LastEdit(ia, ib, i, j)
      case Drop => DropApplies(ia, ib, i, j, rest);
      case Insert => InsertApplies(ia, ib, i, j, rest);
      case Change => ChangeApplies(ia, ib, i, j, rest);
      case Keep => KeepApplies(ia, ib, i, j, rest);
    }
  }

  // ---- other lists ----

  /** What is left of a document when the filtered patch has been applied, if it applies. */
  function Patched(order: KeyOrder, a: Json, b: Json): Option<Json> { ApplyAll(a, Filter(Diff(order, a, b))) }

  lemma {:induction false} FilterAdds(n: nat, adds: seq<Json>)
    requires adds != []
    ensures Filter(AddsFrom(n, adds))
            == (if adds[0] == Null then [] else [Op(Add, [Index(n)], adds[0])]) + Filter(AddsFrom(n + 1, adds[1..]))
    ensures [] + Filter(AddsFrom(n + 1, adds[1..])) == Filter(AddsFrom(n + 1, adds[1..]))
  {
  }

  lemma {:induction false} AppendOne(items: seq<Json>, adds: seq<Json>)
    requires adds != [] && adds[0] != Null
    ensures ApplyAll(Arr(items), Filter(AddsFrom(|items|, adds)))
            == ApplyAll(Arr(items + [adds[0]]), Filter(AddsFrom(|items| + 1, adds[1..])))
  {
    FilterAdds(|items|, adds);
    ApplyCons(Arr(items), Op(Add, [Index(|items|)], adds[0]), Filter(AddsFrom(|items| + 1, adds[1..])));
    AddAtEnd(items, adds[0]);
  }

  lemma {:induction false} AddAtEnd(items: seq<Json>, x: Json)
    ensures ApplyOp(Arr(items), Op(Add, [Index(|items|)], x)) == Some(Arr(items + [x]))
  {
    assert items[..|items|] + [x] + items[|items|..] == items + [x];
  }

  lemma {:induction false} PastEnd(items: seq<Json>, n: nat, adds: seq<Json>)
    requires n > |items|
    ensures ApplyAll(Arr(items), Filter(AddsFrom(n, adds))) == if AllNull(adds) then Some(Arr(items)) else None
    decreases |adds|
  {
    if adds != [] {
      FilterAdds(n, adds);
      if adds[0] == Null {
        PastEnd(items, n + 1, adds[1..]);
      } else {
        ApplyCons(Arr(items), Op(Add, [Index(n)], adds[0]), Filter(AddsFrom(n + 1, adds[1..])));
      }
    }
  }

  /** Appending elements with the null ones dropped works exactly when no null is followed by a
      value, because a later addition would lie past the end. */
  lemma {:induction false} AppendingAppliesIff(items: seq<Json>, adds: seq<Json>)
    ensures ApplyAll(Arr(items), Filter(AddsFrom(|items|, adds)))
            == if NullsLast(adds) then Some(Arr(items + UpToNull(adds))) else None
    decreases |adds|
  {
    assert items + [] == items;
    if adds != [] {
      if adds[0] == Null {
        FilterAdds(|items|, adds);
        PastEnd(items, |items| + 1, adds[1..]);
      } else {
        AppendOne(items, adds);
        AppendingAppliesIff(items + [adds[0]], adds[1..]);
        Assoc(items, [adds[0]], UpToNull(adds[1..]));
      }
    }
  }

  /** The first `n` elements replaced by what their own patches make of them. */
  function PatchedItems(order: KeyOrder, items: seq<Json>, ia: seq<Json>, ib: seq<Json>, n: nat): (r: Option<seq<Json>>)
    requires n <= |ia| && n <= |ib| && n <= |items|
    ensures r.Some? ==> |r.value| == |items|
  {
    if n == 0 then Some(items)
    else
      var before := PatchedItems(order, items, ia, ib, n - 1);
      var last := Patched(order, ia[n - 1], ib[n - 1]);
      if before.None? || last.None? then None else Some(before.value[n - 1 := last.value])
  }

  lemma {:induction false} PatchedItemsPointwise(order: KeyOrder, items: seq<Json>, ia: seq<Json>, ib: seq<Json>,
                                                 n: nat)
    requires n <= |ia| && n <= |ib| && n <= |items|
    ensures var r := PatchedItems(order, items, ia, ib, n);
            && (r.None? <==> exists i :: 0 <= i < n && Patched(order, ia[i], ib[i]).None?)
            && (r.Some? ==> forall i :: 0 <= i < |items| ==>
                  if i < n then Patched(order, ia[i], ib[i]) == Some(r.value[i]) else r.value[i] == items[i])
  {
    if n > 0 {
      var m := n - 1;
      PatchedItemsPointwise(order, items, ia, ib, m);
      if Patched(order, ia[m], ib[m]).Some? {
        assert forall i :: 0 <= i < n && Patched(order, ia[i], ib[i]).None? ==> i < m;
      }
    }
  }

  /** A live null meets a value among the first `n` elements. */
  ghost predicate NullMeetsValue(ia: seq<Json>, ib: seq<Json>, n: nat)
    requires n <= |ia| && n <= |ib|
  {
    exists i :: 0 <= i < n && ia[i] == Null && ib[i] != Null
  }

  lemma {:induction false} AgreeBelow(items: seq<Json>, ia: seq<Json>, n: nat)
    requires 0 < n <= |items| && n <= |ia| && items[..n] == ia[..n]
    ensures items[..n - 1] == ia[..n - 1] && items[n - 1] == ia[n - 1]
  {
    assert items[..n - 1] == items[..n][..n - 1] && ia[..n - 1] == ia[..n][..n - 1];
    assert items[n - 1] == items[..n][n - 1] && ia[n - 1] == ia[..n][n - 1];
  }

  /** Element by element, as long as no live null meets a value. */
  lemma {:induction false} ApplyItems(order: KeyOrder, items: seq<Json>, ia: seq<Json>, b: Json, n: nat)
    requires b.Arr? && n <= |ia| && n <= |b.items| && n <= |items|
    requires items[..n] == ia[..n] && !NullMeetsValue(ia, b.items, n)
    ensures ApplyAll(Arr(items), Filter(DiffItems(order, ia, b, n)))
            == var r := PatchedItems(order, items, ia, b.items, n); if r.None? then None else Some(Arr(r.value))
    decreases n
  {
    if n > 0 {
      AgreeBelow(items, ia, n);
      ApplyItems(order, items, ia, b, n - 1);
      PatchedItemsPointwise(order, items, ia, b.items, n - 1);
      ApplyLastItem(order, items, ia, b, n);
    }
  }

  /** The difference of the last element changes that element and nothing else. */
  lemma {:induction false} ApplyLastItem(order: KeyOrder, items: seq<Json>, ia: seq<Json>, b: Json, n: nat)
    requires b.Arr? && 0 < n <= |ia| && n <= |b.items| && (ia[n - 1] != Null || b.items[n - 1] == Null)
    ensures var mid := ApplyAll(Arr(items), Filter(DiffItems(order, ia, b, n - 1)));
            var last := Patched(order, ia[n - 1], b.items[n - 1]);
            && (mid.None? ==> ApplyAll(Arr(items), Filter(DiffItems(order, ia, b, n))) == None)
            && (mid.Some? && mid.value.Arr? && n <= |mid.value.items| && mid.value.items[n - 1] == ia[n - 1] ==>
                  ApplyAll(Arr(items), Filter(DiffItems(order, ia, b, n)))
                  == if last.None? then None else Some(Arr(mid.value.items[n - 1 := last.value])))
  {
    var m := n - 1;
    var last := Diff(order, ia[m], b.items[m]);
    var before := DiffItems(order, ia, b, m);
    assert DiffItems(order, ia, b, n) == before + Under(Index(m), last);
    FilterConcat(before, Under(Index(m), last));
    ApplyConcat(Arr(items), Filter(before), Filter(Under(Index(m), last)));
    FilterUnder(Index(m), last);
    DiffIsInner(order, ia[m], b.items[m]);
    var mid := ApplyAll(Arr(items), Filter(before));
    if mid.Some? && mid.value.Arr? && n <= |mid.value.items| {
      ApplyUnderIndex(mid.value.items, m, Filter(last));
    }
  }

  // ---- a live null that meets a value ----

  /** The additions to the list itself. */
  function Grows(ops: seq<Op>): nat {
    if ops == [] then 0 else (if ops[0].kind == Add && |ops[0].path| == 1 then 1 else 0) + Grows(ops[1..])
  }

  lemma {:induction false} GrowsConcat(x: seq<Op>, y: seq<Op>)
    ensures Grows(x + y) == Grows(x) + Grows(y)
  {
    if x == [] {
      assert x + y == y;
    } else {
      HeadOfSum(x, y);
      GrowsConcat(x[1..], y);
    }
  }

  /** Without removals from it a list only grows, by its additions. */
  lemma {:induction false} ListGrows(items: seq<Json>, ops: seq<Op>)
    requires Deep(ops) && forall i :: 0 <= i < |ops| && ops[i].kind == Remove ==> |ops[i].path| > 1
    ensures var r := ApplyAll(Arr(items), ops);
            r.Some? ==> r.value.Arr? && |r.value.items| == |items| + Grows(ops)
    decreases |ops|
  {
    if ops != [] {
      var next := ApplyOp(Arr(items), ops[0]);
      assert ops[0].path != [];
      if next.Some? { ListGrows(next.value.items, ops[1..]); }
    }
  }

  lemma {:induction false} NullMeetingGrows(order: KeyOrder, ia: seq<Json>, b: Json, n: nat)
    requires b.Arr? && n <= |ia| && n <= |b.items| && NullMeetsValue(ia, b.items, n)
    ensures Grows(Filter(DiffItems(order, ia, b, n))) > 0
    decreases n
  {
    var m := n - 1;
    var before, last := DiffItems(order, ia, b, m), Under(Index(m), Diff(order, ia[m], b.items[m]));
    assert DiffItems(order, ia, b, n) == before + last;
    FilterConcat(before, last);
    GrowsConcat(Filter(before), Filter(last));
    if NullMeetsValue(ia, b.items, m) {
      NullMeetingGrows(order, ia, b, m);
    } else {
      var op := Op(Add, [Index(m)], b.items[m]);
      assert Diff(order, ia[m], b.items[m]) == [Op(Add, [], b.items[m])];
      assert [Index(m)] + [] == [Index(m)];
      assert last == [op] && Filter(last) == [op];
    }
  }

  // ---- objects ----

  /** The operations for one field. */
  function FieldOps(order: KeyOrder, fa: map<string, Json>, b: Json, k: string): seq<Op>
    requires b.Obj?
  {
    if k !in b.fields then []
    else if k in fa then Under(Field(k), Diff(order, fa[k], b.fields[k]))
    else [Op(Add, [Field(k)], b.fields[k])]
  }

  /** `f` with one field replaced by what its own patch makes of it. */
  function PatchedField(order: KeyOrder, f: map<string, Json>, fa: map<string, Json>, fb: map<string, Json>,
                        k: string): Option<map<string, Json>>
  {
    if k !in fb then Some(f)
    else if k in fa then
      var v := Patched(order, fa[k], fb[k]);
      if v.None? then None else Some(f[k := v.value])
    else if fb[k] == Null then Some(f)
    else Some(f[k := fb[k]])
  }

  function PatchedFields(order: KeyOrder, f: map<string, Json>, fa: map<string, Json>, fb: map<string, Json>,
                         keys: seq<string>): Option<map<string, Json>>
    decreases |keys|
  {
    if keys == [] then Some(f)
    else
      var g := PatchedField(order, f, fa, fb, keys[0]);
      if g.None? then None else PatchedFields(order, g.value, fa, fb, keys[1..])
  }

  /** What the patches of the fields `keys` make of field `k`. */
  ghost predicate FieldIsPatched(order: KeyOrder, f: map<string, Json>, fa: map<string, Json>, fb: map<string, Json>,
                                 keys: seq<string>,
                                 r: map<string, Json>, k: string) {
    if k in keys && k in fb && k in fa then k in r && Patched(order, fa[k], fb[k]) == Some(r[k])
    else if k in keys && k in fb && fb[k] != Null then k in r && r[k] == fb[k]
    else (k in r <==> k in f) && (k in f ==> r[k] == f[k])
  }

  lemma {:induction false} PatchedFieldsPointwise(
    order: KeyOrder, f: map<string, Json>, fa: map<string, Json>, fb: map<string, Json>, keys: seq<string>, k: string)
    requires NoDuplicates(keys)
    ensures var r := PatchedFields(order, f, fa, fb, keys);
            r.Some? ==> FieldIsPatched(order, f, fa, fb, keys, r.value, k)
    decreases |keys|
  {
    if keys != [] {
      HeadOfDistinct(keys);
      assert keys == [keys[0]] + keys[1..];
      var g := PatchedField(order, f, fa, fb, keys[0]);
      if g.Some? { PatchedFieldsPointwise(order, g.value, fa, fb, keys[1..], k); }
    }
  }

  lemma {:induction false} PatchedFieldsFail(
    order: KeyOrder, f: map<string, Json>, fa: map<string, Json>, fb: map<string, Json>, keys: seq<string>)
    ensures PatchedFields(order, f, fa, fb, keys).None?
       <==> exists k :: k in keys && k in fa && k in fb && Patched(order, fa[k], fb[k]).None?
    decreases |keys|
  {
    if keys != [] {
      assert keys == [keys[0]] + keys[1..];
      var g := PatchedField(order, f, fa, fb, keys[0]);
      if g.Some? { PatchedFieldsFail(order, g.value, fa, fb, keys[1..]); }
    }
  }

  /** Pending fields are still as they were. */
  ghost predicate Pending(f: map<string, Json>, fa: map<string, Json>, keys: seq<string>) {
    forall k :: k in keys ==> (k in f <==> k in fa) && (k in fa ==> f[k] == fa[k])
  }

  lemma {:induction false} ApplyField(order: KeyOrder, f: map<string, Json>, fa: map<string, Json>, b: Json, k: string)
    requires b.Obj? && (k in fa ==> k in f && f[k] == fa[k]) && (k !in fa ==> k !in f)
    ensures ApplyAll(Obj(f), Filter(FieldOps(order, fa, b, k)))
            == var r := PatchedField(order, f, fa, b.fields, k); if r.None? then None else Some(Obj(r.value))
  {
    if k in b.fields && k in fa {
      FilterUnder(Field(k), Diff(order, fa[k], b.fields[k]));
      FilterHasNoRemove(Diff(order, fa[k], b.fields[k]));
      ApplyUnderField(f, k, Filter(Diff(order, fa[k], b.fields[k])));
    }
  }

  lemma {:induction false} ApplyFirstField(order: KeyOrder, doc: Json, fa: map<string, Json>, b: Json,
                                           keys: seq<string>)
    requires b.Obj? && keys != []
    ensures ApplyAll(doc, Filter(DiffFields(order, fa, b, keys)))
            == var mid := ApplyAll(doc, Filter(FieldOps(order, fa, b, keys[0])));
               if mid.None? then None else ApplyAll(mid.value, Filter(DiffFields(order, fa, b, keys[1..])))
  {
    var head, later := FieldOps(order, fa, b, keys[0]), DiffFields(order, fa, b, keys[1..]);
    assert DiffFields(order, fa, b, keys) == head + later;
    FilterConcat(head, later);
    ApplyConcat(doc, Filter(head), Filter(later));
  }

  lemma {:induction false} ApplyFields(order: KeyOrder, f: map<string, Json>, fa: map<string, Json>, b: Json,
                                       keys: seq<string>)
    requires b.Obj? && NoDuplicates(keys) && Pending(f, fa, keys)
    ensures ApplyAll(Obj(f), Filter(DiffFields(order, fa, b, keys)))
            == var r := PatchedFields(order, f, fa, b.fields, keys); if r.None? then None else Some(Obj(r.value))
    decreases |keys|
  {
    if keys != [] {
      var k, rest := keys[0], keys[1..];
      HeadOfDistinct(keys);
      assert keys == [k] + rest;
      ApplyFirstField(order, Obj(f), fa, b, keys);
      ApplyField(order, f, fa, b, k);
      var g := PatchedField(order, f, fa, b.fields, k);
      if g.Some? { ApplyFields(order, g.value, fa, b, rest); }
    }
  }

  // ---- the patch lays the expected document over the live one ----

  lemma {:induction false} PatchedObject(order: KeyOrder, fa: map<string, Json>, fb: map<string, Json>)
    requires OrdersKeys(order)
    ensures var r := PatchedFields(order, fa, fa, fb, order(fb));
            Patched(order, Obj(fa), Obj(fb)) == if r.None? then None else Some(Obj(r.value))
  {
    FilteredObjectDiff(order, fa, Obj(fb));
    ApplyFields(order, fa, fa, Obj(fb), order(fb));
  }

  lemma {:induction false} ObjectOverlayIff(order: KeyOrder, fa: map<string, Json>, fb: map<string, Json>)
    requires OrdersKeys(order)
    requires forall k :: k in fa && k in fb ==>
               (Patched(order, fa[k], fb[k]) == Some(Overlay(fa[k], fb[k])) <==> Patchable(fa[k], fb[k]))
    ensures Patched(order, Obj(fa), Obj(fb)) == Some(Overlay(Obj(fa), Obj(fb))) <==> Patchable(Obj(fa), Obj(fb))
  {
    var keys := order(fb);
    var r := PatchedFields(order, fa, fa, fb, keys);
    PatchedObject(order, fa, fb);
    PatchedFieldsFail(order, fa, fa, fb, keys);
    if r.Some? {
      forall k
        ensures FieldIsPatched(order, fa, fa, fb, keys, r.value, k)
      {
        PatchedFieldsPointwise(order, fa, fa, fb, keys, k);
      }
      SameFieldsIff(order, fa, fb, keys, r.value);
    }
  }

  lemma {:induction false} SameFieldsIff(order: KeyOrder, fa: map<string, Json>, fb: map<string, Json>,
                                         keys: seq<string>, r: map<string, Json>)
    requires IsOrder(keys, fb.Keys) && forall k :: FieldIsPatched(order, fa, fa, fb, keys, r, k)
    ensures r == Overlay(Obj(fa), Obj(fb)).fields
       <==> forall k :: k in fa && k in fb ==> Patched(order, fa[k], fb[k]) == Some(Overlay(fa[k], fb[k]))
  {
    var o := Overlay(Obj(fa), Obj(fb)).fields;
    forall k ensures (k in r <==> k in o)
                     && (k in r && !(k in fa && k in fb) ==> r[k] == o[k])
                     && (k in fa && k in fb ==>
                           Patched(order, fa[k], fb[k]) == Some(r[k]) && o[k] == Overlay(fa[k], fb[k])) {
      assert FieldIsPatched(order, fa, fa, fb, keys, r, k);
    }
  }

  lemma {:induction false} ArrayOverlayIff(order: KeyOrder, ia: seq<Json>, ib: seq<Json>)
    requires !(ScalarsOnly(ia) && ScalarsOnly(ib))
    requires forall i :: 0 <= i < |ia| && i < |ib| ==>
               (Patched(order, ia[i], ib[i]) == Some(Overlay(ia[i], ib[i])) <==> Patchable(ia[i], ib[i]))
    ensures Patched(order, Arr(ia), Arr(ib)) == Some(Overlay(Arr(ia), Arr(ib))) <==> Patchable(Arr(ia), Arr(ib))
  {
    var n := Shorter(ia, ib);
    var adds := ib[n..];
    FilteredArrayDiff(order, ia, ib);
    ApplyConcat(Arr(ia), Filter(AddsFrom(n, adds)), Filter(DiffItems(order, ia, Arr(ib), n)));
    AppendAll(ia, ib);
    if NullsLast(adds) {
      AppendedOverlayIff(order, ia, ib);
    }
  }

  lemma {:induction false} AppendAll(ia: seq<Json>, ib: seq<Json>)
    ensures var n := Shorter(ia, ib);
            ApplyAll(Arr(ia), Filter(AddsFrom(n, ib[n..])))
            == if NullsLast(ib[n..]) then Some(Arr(ia + UpToNull(ib[n..]))) else None
  {
    var n := Shorter(ia, ib);
    if |ia| <= |ib| {
      AppendingAppliesIff(ia, ib[n..]);
    } else {
      assert ib[n..] == [] && ia + [] == ia;
    }
  }

  lemma {:induction false} AppendedOverlayIff(order: KeyOrder, ia: seq<Json>, ib: seq<Json>)
    requires !(ScalarsOnly(ia) && ScalarsOnly(ib)) && NullsLast(ib[Shorter(ia, ib)..])
    requires forall i :: 0 <= i < |ia| && i < |ib| ==>
               (Patched(order, ia[i], ib[i]) == Some(Overlay(ia[i], ib[i])) <==> Patchable(ia[i], ib[i]))
    ensures var n := Shorter(ia, ib);
            ApplyAll(Arr(ia + UpToNull(ib[n..])), Filter(DiffItems(order, ia, Arr(ib), n)))
              == Some(Overlay(Arr(ia), Arr(ib)))
            <==> Patchable(Arr(ia), Arr(ib))
  {
    var n := Shorter(ia, ib);
    PatchableItems(ia, ib);
    if NullMeetsValue(ia, ib, n) {
      ShiftedIsNoOverlay(order, ia, ib);
    } else {
      ItemsOverlayIff(order, ia, ib);
    }
  }

  lemma {:induction false} PatchableItems(ia: seq<Json>, ib: seq<Json>)
    requires !(ScalarsOnly(ia) && ScalarsOnly(ib)) && NullsLast(ib[Shorter(ia, ib)..])
    ensures var n := Shorter(ia, ib);
            Patchable(Arr(ia), Arr(ib))
            <==> !NullMeetsValue(ia, ib, n) && forall i :: 0 <= i < n ==> Patchable(ia[i], ib[i])
  {
  }

  /** Where a live null meets a value the list becomes longer than the overlay. */
  lemma {:induction false} ShiftedIsNoOverlay(order: KeyOrder, ia: seq<Json>, ib: seq<Json>)
    requires !(ScalarsOnly(ia) && ScalarsOnly(ib)) && NullMeetsValue(ia, ib, Shorter(ia, ib))
    ensures var n := Shorter(ia, ib);
            ApplyAll(Arr(ia + UpToNull(ib[n..])), Filter(DiffItems(order, ia, Arr(ib), n)))
              != Some(Overlay(Arr(ia), Arr(ib)))
  {
    var n := Shorter(ia, ib);
    var items, ops := ia + UpToNull(ib[n..]), DiffItems(order, ia, Arr(ib), n);
    NullMeetingGrows(order, ia, Arr(ib), n);
    ItemsAreDeep(order, ia, Arr(ib), n);
    FilterOfDeep(ops);
    FilterHasNoRemove(ops);
    ListGrows(items, Filter(ops));
    OverlayItem(ia, ib);
  }

  lemma {:induction false} OverlayItem(ia: seq<Json>, ib: seq<Json>)
    requires !(ScalarsOnly(ia) && ScalarsOnly(ib))
    ensures var n := Shorter(ia, ib);
            var items, o := ia + UpToNull(ib[n..]), Overlay(Arr(ia), Arr(ib));
            && o.Arr? && |o.items| == |items|
            && forall i :: 0 <= i < |items| ==> o.items[i] == if i < n then Overlay(ia[i], ib[i]) else items[i]
  {
  }

  lemma {:induction false} ItemsOverlayIff(order: KeyOrder, ia: seq<Json>, ib: seq<Json>)
    requires !(ScalarsOnly(ia) && ScalarsOnly(ib)) && !NullMeetsValue(ia, ib, Shorter(ia, ib))
    ensures var n := Shorter(ia, ib);
            ApplyAll(Arr(ia + UpToNull(ib[n..])), Filter(DiffItems(order, ia, Arr(ib), n)))
              == Some(Overlay(Arr(ia), Arr(ib)))
            <==> forall i :: 0 <= i < n ==> Patched(order, ia[i], ib[i]) == Some(Overlay(ia[i], ib[i]))
  {
    var n := Shorter(ia, ib);
    var items := ia + UpToNull(ib[n..]);
    assert items[..n] == ia[..n];
    ApplyItems(order, items, ia, Arr(ib), n);
    PatchedItemsPointwise(order, items, ia, ib, n);
    OverlayItem(ia, ib);
    var r := PatchedItems(order, items, ia, ib, n);
    if r.Some? {
      SamePrefixIff(r.value, Overlay(Arr(ia), Arr(ib)).items, n);
    }
  }

  lemma {:induction false} SamePrefixIff(x: seq<Json>, y: seq<Json>, n: nat)
    requires |x| == |y| && n <= |x| && forall i :: n <= i < |x| ==> x[i] == y[i]
    ensures x == y <==> forall i :: 0 <= i < n ==> x[i] == y[i]
  {
  }

  lemma {:induction false} AtomOverlay(order: KeyOrder, a: Json, b: Json)
    requires !(a.Obj? && b.Obj?) && !(a.Arr? && b.Arr?)
    ensures Patched(order, a, b) == Some(Overlay(a, b))
  {
    var ops := Diff(order, a, b);
    if ops != [] {
      assert Filter(ops) == [ops[0]];
      assert ApplyOp(a, ops[0]) == Some(b);
      ApplyCons(a, ops[0], []);
      assert [ops[0]] + [] == [ops[0]];
    }
  }

  /** Exactly when the filtered patch does what it is for: it applies, and lays the expected
      document over the live one, for any two documents. */
  lemma {:induction false} PatchLaysOverIff(order: KeyOrder, a: Json, b: Json)
    requires OrdersKeys(order)
    ensures Patched(order, a, b) == Some(Overlay(a, b)) <==> Patchable(a, b)
    decreases b
  {
    match (a, b)
    case (Obj(fa), Obj(fb)) =>
      forall k | k in fa && k in fb
        ensures Patched(order, fa[k], fb[k]) == Some(Overlay(fa[k], fb[k])) <==> Patchable(fa[k], fb[k])
      {
        PatchLaysOverIff(order, fa[k], fb[k]);
      }
      ObjectOverlayIff(order, fa, fb);
    case (Arr(ia), Arr(ib)) =>
      if ScalarsOnly(ia) && ScalarsOnly(ib) {
        ApplyEdits(ia, ib, |ia|, |ib|, []);
        assert ia[..|ia|] + [] == ia && Edited(ia, ib, |ia|, |ib|) + [] == Edited(ia, ib, |ia|, |ib|);
      } else {
        forall i | 0 <= i < |ia| && i < |ib|
          ensures Patched(order, ia[i], ib[i]) == Some(Overlay(ia[i], ib[i])) <==> Patchable(ia[i], ib[i])
        {
          PatchLaysOverIff(order, ia[i], ib[i]);
        }
        ArrayOverlayIff(order, ia, ib);
      }
    case _ => AtomOverlay(order, a, b);
  }

  // ---- when the patch applies ----

  /** In no list, unless both have only scalars, does a live null meet a value. */
  predicate NoNullMeets(a: Json, b: Json)
    decreases b
  {
    match (a, b)
    case (Obj(fa), Obj(fb)) => forall k :: k in fa && k in fb ==> NoNullMeets(fa[k], fb[k])
    case (Arr(ia), Arr(ib)) =>
      || (ScalarsOnly(ia) && ScalarsOnly(ib))
      || forall i :: 0 <= i < |ia| && i < |ib| ==> (ia[i] == Null ==> ib[i] == Null) && NoNullMeets(ia[i], ib[i])
    case _ => true
  }

  lemma {:induction false} FieldFails(order: KeyOrder, fa: map<string, Json>, fb: map<string, Json>, k: string)
    requires OrdersKeys(order) && k in fa && k in fb && Patched(order, fa[k], fb[k]).None?
    ensures Patched(order, Obj(fa), Obj(fb)).None?
  {
    PatchedObject(order, fa, fb);
    PatchedFieldsFail(order, fa, fa, fb, order(fb));
    assert k in order(fb);
  }

  lemma {:induction false} ItemFails(order: KeyOrder, ia: seq<Json>, ib: seq<Json>, i: nat)
    requires !(ScalarsOnly(ia) && ScalarsOnly(ib)) && !NullMeetsValue(ia, ib, Shorter(ia, ib))
    requires NullsLast(ib[Shorter(ia, ib)..]) ==> i < |ia| && i < |ib| && Patched(order, ia[i], ib[i]).None?
    ensures Patched(order, Arr(ia), Arr(ib)).None?
  {
    var n := Shorter(ia, ib);
    FilteredArrayDiff(order, ia, ib);
    ApplyConcat(Arr(ia), Filter(AddsFrom(n, ib[n..])), Filter(DiffItems(order, ia, Arr(ib), n)));
    AppendAll(ia, ib);
    if NullsLast(ib[n..]) {
      var items := ia + UpToNull(ib[n..]);
      assert items[..n] == ia[..n];
      ApplyItems(order, items, ia, Arr(ib), n);
      PatchedItemsPointwise(order, items, ia, ib, n);
    }
  }

  lemma {:induction false} FailsUnlessPatchable(order: KeyOrder, a: Json, b: Json)
    requires OrdersKeys(order) && NoNullMeets(a, b) && !Patchable(a, b)
    ensures Patched(order, a, b).None?
    decreases b
  {
    match (a, b)
    case (Obj(fa), Obj(fb)) =>
      var k :| k in fa && k in fb && !Patchable(fa[k], fb[k]);
      FailsUnlessPatchable(order, fa[k], fb[k]);
      FieldFails(order, fa, fb, k);
    case (Arr(ia), Arr(ib)) =>
      var i: nat := 0;
      if NullsLast(ib[Shorter(ia, ib)..]) {
        i :| 0 <= i < |ia| && i < |ib| && !Patchable(ia[i], ib[i]);
        FailsUnlessPatchable(order, ia[i], ib[i]);
      }
      ItemFails(order, ia, ib, i);
  }

  /** Unless a live null of a list meets a value, the filtered patch applies exactly when no
      null that is to be appended is followed by a value, at any depth. */
  lemma {:induction false} AppliesIff(order: KeyOrder, a: Json, b: Json)
    requires OrdersKeys(order) && NoNullMeets(a, b)
    ensures Patched(order, a, b).Some? <==> Patchable(a, b)
  {
    if Patchable(a, b) {
      PatchLaysOverIff(order, a, b);
    } else {
      FailsUnlessPatchable(order, a, b);
    }
  }
}
