/** What the patched document contains, and when there is nothing left to send. */
module PatchConvergence {
  import opened Wrappers
  import opened EditDistance
  import opened JsonPatch
  import opened PatchApplication

  // ---- what the overlay means ----

  lemma {:induction false} CoversItself(b: Json)
    ensures Covers(b, b)
    decreases b
  {
    match b
    case Obj(fb) => forall k | k in fb ensures Covers(fb[k], fb[k]) { CoversItself(fb[k]); }
    case Arr(ib) =>
      PrefixIsSubsequence(ib, ib);
      forall i | 0 <= i < |ib| ensures Covers(ib[i], ib[i]) { CoversItself(ib[i]); }
    case _ =>
  }

  /** The overlay has everything that is expected, if the patch can bring it about. */
  lemma {:induction false} OverlayCovers(a: Json, b: Json)
    requires Patchable(a, b)
    ensures Covers(Overlay(a, b), b)
    decreases b
  {
    match (a, b)
    case (Obj(fa), Obj(fb)) =>
      forall k | k in fb && k in Overlay(a, b).fields ensures Covers(Overlay(a, b).fields[k], fb[k]) {
        if k in fa { OverlayCovers(fa[k], fb[k]); } else { CoversItself(fb[k]); }
      }
    case (Arr(ia), Arr(ib)) =>
      if ScalarsOnly(ia) && ScalarsOnly(ib) {
        EditedContains(ia, ib, |ia|, |ib|);
        WholePrefix(ib);
        EditedScalars(ia, ib, |ia|, |ib|);
      } else {
        forall i | 0 <= i < |ia| && i < |ib|
          ensures Covers(Overlay(ia[i], ib[i]), ib[i])
        {
          OverlayCovers(ia[i], ib[i]);
        }
        ListOverlayCovers(ia, ib);
      }
    case _ => CoversItself(b);
  }

  lemma WholePrefix<T>(s: seq<T>)
    ensures s[..|s|] == s
  {
  }

  lemma {:induction false} EditedScalars(ia: seq<Json>, ib: seq<Json>, i: nat, j: nat)
    requires ScalarsOnly(ia) && ScalarsOnly(ib) && i <= |ia| && j <= |ib|
    ensures ScalarsOnly(Edited(ia, ib, i, j))
    decreases i + j
  {
    if i + j > 0 {
      match LastEdit(ia, ib, i, j)
      case Drop => EditedScalars(ia, ib, i - 1, j);
      case Insert => EditedScalars(ia, ib, i, j - 1);
      case _ => EditedScalars(ia, ib, i - 1, j - 1);
    }
  }

  lemma {:induction false} AllNullAt(items: seq<Json>)
    ensures AllNull(items) <==> forall i :: 0 <= i < |items| ==> items[i] == Null
  {
    if items != [] {
      AllNullAt(items[1..]);
      assert forall i :: 1 <= i < |items| ==> items[i] == items[1..][i - 1];
    }
  }

  lemma {:induction false} NullsAfter(items: seq<Json>)
    requires NullsLast(items)
    ensures UpToNull(items) <= items && forall i :: |UpToNull(items)| <= i < |items| ==> items[i] == Null
  {
    if items != [] && items[0] == Null {
      AllNullAt(items[1..]);
      assert forall i :: 1 <= i < |items| ==> items[i] == items[1..][i - 1];
    } else if items != [] {
      NullsAfter(items[1..]);
      assert items == [items[0]] + items[1..];
    }
  }

  /** What is expected of the list, position by position. */
  lemma {:induction false} ListOverlayCovers(ia: seq<Json>, ib: seq<Json>)
    requires !(ScalarsOnly(ia) && ScalarsOnly(ib)) && NullsLast(ib[Shorter(ia, ib)..])
    requires forall i :: 0 <= i < |ia| && i < |ib| ==> Covers(Overlay(ia[i], ib[i]), ib[i])
    ensures Covers(Overlay(Arr(ia), Arr(ib)), Arr(ib))
  {
    var n := Shorter(ia, ib);
    var o := Overlay(Arr(ia), Arr(ib)).items;
    NullsAfter(ib[n..]);
    OverlayItem(ia, ib);
    forall i | 0 <= i < |ib| ensures if i < |o| then Covers(o[i], ib[i]) else ib[i] == Null {
      if i >= n {
        assert ib[i] == ib[n..][i - n];
        CoversItself(ib[i]);
      }
    }
    if ScalarsOnly(o) && ScalarsOnly(ib) {
      ScalarsCovered(o, ib);
      PrefixIsSubsequence(ib, o);
    }
  }

  lemma {:induction false} ScalarsCovered(o: seq<Json>, ib: seq<Json>)
    requires ScalarsOnly(ib)
    requires forall i :: 0 <= i < |ib| ==> if i < |o| then Covers(o[i], ib[i]) else ib[i] == Null
    ensures ib <= o
  {
    forall i | 0 <= i < |ib| ensures i < |o| && o[i] == ib[i] { assert ib[i].Scalar?; }
    assert |ib| > 0 ==> ib[|ib| - 1].Scalar?;
  }

  lemma {:induction false} OverlayKeepsRest(a: Json, b: Json)
    ensures KeepsRest(Overlay(a, b), a, b)
    decreases b
  {
    match (a, b)
    case (Obj(fa), Obj(fb)) =>
      forall k | k in fa && k in fb
        ensures KeepsRest(Overlay(a, b).fields[k], fa[k], fb[k])
      {
        OverlayKeepsRest(fa[k], fb[k]);
      }
    case (Arr(ia), Arr(ib)) =>
      if ScalarsOnly(ia) && ScalarsOnly(ib) {
        EditedIsWoven(ia, ib, |ia|, |ib|);
        WholePrefix(ia);
        WholePrefix(ib);
      } else {
        forall i | 0 <= i < |ia| && i < |ib|
          ensures KeepsRest(Overlay(ia[i], ib[i]), ia[i], ib[i])
        {
          OverlayKeepsRest(ia[i], ib[i]);
        }
        OverlayItem(ia, ib);
      }
    case _ =>
  }

  // ---- when there is nothing to send ----

  lemma {:induction false} NothingToSendForArray(order: KeyOrder, ia: seq<Json>, b: Json)
    requires OrdersKeys(order) && b.Arr? && !(ScalarsOnly(ia) && ScalarsOnly(b.items))
    ensures Filter(Diff(order, Arr(ia), b)) == [] <==> Covers(Arr(ia), b)
    decreases b, 0, |b.items| + 1
  {
    var n := Shorter(ia, b.items);
    FilteredArrayDiff(order, ia, b.items);
    NoItemToSend(order, ia, b, n);
    NoAddToSend(n, b.items[n..]);
    assert forall i :: n <= i < |b.items| ==> b.items[n..][i - n] == b.items[i];
  }

  /** For lists of scalars only removals are needed. */
  lemma {:induction false} NoEditToSend(ia: seq<Json>, ib: seq<Json>, i: nat, j: nat)
    requires i <= |ia| && j <= |ib| && ScalarsOnly(ib)
    ensures Filter(Edits(ia, ib, i, j)) == [] <==> OnlyDrops(ia, ib, i, j)
    decreases i + j
  {
    if i + j > 0 {
      match LastEdit(ia, ib, i, j)
      case Drop =>
        NoEditToSend(ia, ib, i - 1, j);
        FilterCons(Op(Remove, [Index(i - 1)], Null), Edits(ia, ib, i - 1, j));
      case Insert => FilterCons(Op(Add, [Index(i)], ib[j - 1]), Edits(ia, ib, i, j - 1));
      case Change => FilterCons(Op(Replace, [Index(i - 1)], ib[j - 1]), Edits(ia, ib, i - 1, j - 1));
      case Keep => NoEditToSend(ia, ib, i - 1, j - 1);
    }
  }

  lemma {:induction false} NothingToSendForScalars(order: KeyOrder, ia: seq<Json>, ib: seq<Json>)
    requires ScalarsOnly(ia) && ScalarsOnly(ib)
    ensures Filter(Diff(order, Arr(ia), Arr(ib))) == [] <==> Covers(Arr(ia), Arr(ib))
  {
    NoEditToSend(ia, ib, |ia|, |ib|);
    OnlyDropsIff(ia, ib, |ia|, |ib|);
    WholePrefix(ia);
    WholePrefix(ib);
  }

  lemma {:induction false} NothingToSendForObject(order: KeyOrder, fa: map<string, Json>, b: Json)
    requires OrdersKeys(order) && b.Obj?
    ensures Filter(Diff(order, Obj(fa), b)) == [] <==> Covers(Obj(fa), b)
    decreases b, 0, |order(b.fields)| + 1
  {
    FilteredObjectDiff(order, fa, b);
    NoFieldToSend(order, fa, b, order(b.fields));
    assert forall k :: k in b.fields <==> k in order(b.fields);
  }

  /** There is nothing to send exactly when the live object covers the expected one. */
  lemma {:induction false} NothingToSend(order: KeyOrder, a: Json, b: Json)
    requires OrdersKeys(order)
    ensures Filter(Diff(order, a, b)) == [] <==> Covers(a, b)
    decreases b, 1, 0
  {
    match (a, b)
    case (Obj(fa), Obj(_)) => NothingToSendForObject(order, fa, b);
    case (Arr(ia), Arr(ib)) =>
      if ScalarsOnly(ia) && ScalarsOnly(ib) {
        NothingToSendForScalars(order, ia, ib);
      } else {
        NothingToSendForArray(order, ia, b);
      }
    case _ => OneOperation(order, a, b);
  }

  lemma {:induction false} OneOperation(order: KeyOrder, a: Json, b: Json)
    requires !(a.Obj? && b.Obj?) && !(a.Arr? && b.Arr?)
    ensures Filter(Diff(order, a, b)) == [] <==> Covers(a, b)
  {
  }

  lemma {:induction false} UnderEmpty(k: Key, ops: seq<Op>)
    ensures Filter(Under(k, ops)) == [] <==> Filter(ops) == []
  {
    FilterUnder(k, ops);
  }

  lemma {:induction false} NoFieldToSend(order: KeyOrder, fa: map<string, Json>, b: Json, keys: seq<string>)
    requires OrdersKeys(order) && b.Obj? && forall k :: k in keys ==> k in b.fields
    ensures Filter(DiffFields(order, fa, b, keys)) == []
       <==> forall k :: k in keys ==> if k in fa then Covers(fa[k], b.fields[k]) else b.fields[k] == Null
    decreases b, 0, |keys|
  {
    if keys != [] {
      var k, rest := keys[0], keys[1..];
      assert keys == [k] + rest;
      NoFieldToSend(order, fa, b, rest);
      if k in fa {
        FilterConcat(Under(Field(k), Diff(order, fa[k], b.fields[k])), DiffFields(order, fa, b, rest));
        UnderEmpty(Field(k), Diff(order, fa[k], b.fields[k]));
        NothingToSend(order, fa[k], b.fields[k]);
      } else {
        FilterConcat([Op(Add, [Field(k)], b.fields[k])], DiffFields(order, fa, b, rest));
      }
    }
  }

  /** The last element adds to the patch exactly what its own difference adds. */
  lemma {:induction false} ItemToSend(order: KeyOrder, ia: seq<Json>, b: Json, n: nat)
    requires b.Arr? && 0 < n <= |ia| && n <= |b.items|
    ensures Filter(DiffItems(order, ia, b, n)) == []
       <==> Filter(DiffItems(order, ia, b, n - 1)) == [] && Filter(Diff(order, ia[n - 1], b.items[n - 1])) == []
  {
    var before, last := DiffItems(order, ia, b, n - 1), Under(Index(n - 1), Diff(order, ia[n - 1], b.items[n - 1]));
    assert DiffItems(order, ia, b, n) == before + last;
    BothEmpty(before, last);
    UnderEmpty(Index(n - 1), Diff(order, ia[n - 1], b.items[n - 1]));
  }

  predicate CoversUpTo(ia: seq<Json>, ib: seq<Json>, n: nat)
    requires n <= |ia| && n <= |ib|
  {
    forall i :: 0 <= i < n ==> Covers(ia[i], ib[i])
  }

  lemma {:induction false} NoItemToSend(order: KeyOrder, ia: seq<Json>, b: Json, n: nat)
    requires OrdersKeys(order) && b.Arr? && n <= |ia| && n <= |b.items|
    ensures Filter(DiffItems(order, ia, b, n)) == [] <==> CoversUpTo(ia, b.items, n)
    decreases b, 0, n
  {
    if n > 0 {
      ItemToSend(order, ia, b, n);
      NoItemToSend(order, ia, b, n - 1);
      NothingToSend(order, ia[n - 1], b.items[n - 1]);
      CoversOneMore(ia, b.items, n);
    }
  }

  lemma {:induction false} CoversOneMore(ia: seq<Json>, ib: seq<Json>, n: nat)
    requires 0 < n <= |ia| && n <= |ib|
    ensures CoversUpTo(ia, ib, n) <==> CoversUpTo(ia, ib, n - 1) && Covers(ia[n - 1], ib[n - 1])
  {
  }

  lemma {:induction false} BothEmpty(x: seq<Op>, y: seq<Op>)
    ensures Filter(x + y) == [] <==> Filter(x) == [] && Filter(y) == []
  {
    FilterConcat(x, y);
    assert |Filter(x) + Filter(y)| == |Filter(x)| + |Filter(y)|;
  }

  lemma {:induction false} NoAddToSend(n: nat, items: seq<Json>)
    ensures Filter(AddsFrom(n, items)) == [] <==> forall i :: 0 <= i < |items| ==> items[i] == Null
    decreases |items|
  {
    if items != [] {
      NoAddToSend(n + 1, items[1..]);
      assert forall i :: 1 <= i < |items| ==> items[i] == items[1..][i - 1];
    }
  }

  // ---- where the patch does something else ----

  /** A live null that meets a value stays behind that value, which shifts what follows. */
  lemma {:induction false} LiveNullShifts(order: KeyOrder, v: string, x: string)
    ensures var live, expected := Arr([Null, Scalar(x)]), Arr([Scalar(v), Scalar(x)]);
            && !Patchable(live, expected)
            && Patched(order, live, expected) == Some(Arr([Scalar(v), Null, Scalar(x)]))
            && !Covers(Arr([Scalar(v), Null, Scalar(x)]), expected)
  {
    var ia, b, r := [Null, Scalar(x)], Arr([Scalar(v), Scalar(x)]), [Scalar(v), Null, Scalar(x)];
    var op := Op(Add, [Index(0)], Scalar(v));
    assert ia[0] == Null && b.items[0] == Scalar(v) && r[1] == Null && b.items[1] == Scalar(x);
    assert DiffItems(order, ia, b, 0) == [] && Under(Index(1), Diff(order, ia[1], b.items[1])) == [];
    assert [Index(0)] + [] == [Index(0)];
    assert Under(Index(0), [Op(Add, [], Scalar(v))]) == [op];
    assert DiffItems(order, ia, b, 1) == [] + [op];
    assert DiffItems(order, ia, b, 2) == [op] + [];
    FilteredArrayDiff(order, ia, b.items);
    assert Filter([op]) == [op];
    ApplyCons(Arr(ia), op, []);
    assert [op] + [] == [op] && ia[..0] + [Scalar(v)] + ia[0..] == r;
  }

  /** The same may do no harm: at the end of a list the live null just stays behind the value. */
  lemma {:induction false} LiveNullStays(order: KeyOrder, v: string)
    ensures var live, expected, r := Arr([Null]), Arr([Scalar(v)]), Arr([Scalar(v), Null]);
            && !Patchable(live, expected)
            && Patched(order, live, expected) == Some(r)
            && Covers(r, expected) && KeepsRest(r, live, expected)
  {
    var ia, b := [Null], Arr([Scalar(v)]);
    var op := Op(Add, [Index(0)], Scalar(v));
    assert ia[0] == Null && b.items[0] == Scalar(v);
    assert [Index(0)] + [] == [Index(0)];
    assert Under(Index(0), [Op(Add, [], Scalar(v))]) == [op];
    assert DiffItems(order, ia, b, 0) == [] && DiffItems(order, ia, b, 1) == [] + [op];
    FilteredArrayDiff(order, ia, b.items);
    assert Filter([op]) == [op];
    ApplyCons(Arr(ia), op, []);
    assert [op] + [] == [op] && ia[..0] + [Scalar(v)] + ia[0..] == [Scalar(v), Null];
    assert !ScalarsOnly([Scalar(v), Null]) by { assert [Scalar(v), Null][1] == Null; }
  }

  /** A null that is to be appended before a value makes a patch that cannot be applied. */
  lemma {:induction false} NullBeforeValueFails(order: KeyOrder, v: string)
    ensures !Patchable(Arr([]), Arr([Null, Scalar(v)]))
    ensures Patched(order, Arr([]), Arr([Null, Scalar(v)])) == None
  {
    var ib := [Null, Scalar(v)];
    assert ib[0] == Null && ib[1..] == [Scalar(v)] && ib[0..] == ib;
    FilteredArrayDiff(order, [], ib);
    ApplyConcat(Arr([]), Filter(AddsFrom(0, ib)), Filter(DiffItems(order, [], Arr(ib), 0)));
    AppendingAppliesIff([], ib);
  }

  /** A list of scalars with one element too many needs no patch. */
  lemma {:induction false} ExtraScalarStays(order: KeyOrder, v: string, x: string)
    requires OrdersKeys(order) && v != x
    ensures Filter(Diff(order, Arr([Scalar(v), Scalar(x)]), Arr([Scalar(x)]))) == []
  {
    var ia, ib := [Scalar(v), Scalar(x)], [Scalar(x)];
    assert ia[..1] == [Scalar(v)] && ib[..0] == [];
    assert Subsequence(ib[..0], ia[..1]);
    NothingToSend(order, Arr(ia), Arr(ib));
  }
}
