/** Updating owned definitions loses nothing, adds nothing, and puts everything in its place. */
module DefinitionsProofs {
  import opened Seqs
  import opened Sorting
  import opened Definitions

  // ---- filters ----

  function Retained(defs: Defs, s: seq<CRD>): seq<CRD> {
    if s == [] then [] else (if Retains(defs, s[0]) then [s[0]] else []) + Retained(defs, s[1..])
  }

  function Generated(defs: Defs, s: seq<CRD>): seq<CRD> {
    if s == [] then [] else (if Retains(defs, s[0]) then [] else [s[0]]) + Generated(defs, s[1..])
  }

  lemma {:induction false} RetainedOfSum(defs: Defs, a: seq<CRD>, b: seq<CRD>)
    ensures Retained(defs, a + b) == Retained(defs, a) + Retained(defs, b)
  {
    if a == [] {
      assert a + b == b && [] + Retained(defs, b) == Retained(defs, b);
    } else {
      var head := if Retains(defs, a[0]) then [a[0]] else [];
      HeadOfSum(a, b);
      RetainedOfSum(defs, a[1..], b);
      assert Retained(defs, a) == head + Retained(defs, a[1..]);
      assert Retained(defs, a + b) == head + Retained(defs, a[1..] + b);
      Assoc(head, Retained(defs, a[1..]), Retained(defs, b));
    }
  }

  lemma {:induction false} GeneratedOfSum(defs: Defs, a: seq<CRD>, b: seq<CRD>)
    ensures Generated(defs, a + b) == Generated(defs, a) + Generated(defs, b)
  {
    if a == [] {
      assert a + b == b && [] + Generated(defs, b) == Generated(defs, b);
    } else {
      var head := if Retains(defs, a[0]) then [] else [a[0]];
      HeadOfSum(a, b);
      GeneratedOfSum(defs, a[1..], b);
      assert Generated(defs, a) == head + Generated(defs, a[1..]);
      assert Generated(defs, a + b) == head + Generated(defs, a[1..] + b);
      Assoc(head, Generated(defs, a[1..]), Generated(defs, b));
    }
  }

  lemma FiltersOfSum(defs: Defs, a: seq<CRD>, b: seq<CRD>)
    ensures Retained(defs, a + b) == Retained(defs, a) + Retained(defs, b)
    ensures Generated(defs, a + b) == Generated(defs, a) + Generated(defs, b)
  {
    RetainedOfSum(defs, a, b);
    GeneratedOfSum(defs, a, b);
  }

  lemma {:induction false} FiltersOfGenerated(defs: Defs, s: seq<CRD>)
    requires forall x :: x in s ==> !Retains(defs, x)
    ensures Retained(defs, s) == [] && Generated(defs, s) == s
  {
    if s != [] { FiltersOfGenerated(defs, s[1..]); }
  }

  /** The generated descriptions come under the key they describe. */
  ghost predicate WellKeyed(defs: Defs) { forall g :: g in defs ==> GVKOf(defs[g].crd) == g }

  lemma GeneratedElement(defs: Defs, generated: map<int, seq<CRD>>, o: int, x: CRD)
    requires HoldsGenerated(defs, generated) && WellKeyed(defs) && x in At(generated, o)
    ensures !Retains(defs, x) && defs[GVKOf(x)] == Values(o, x)
  {
    assert x in multiset(At(generated, o));
    assert |Defining(defs, defs.Keys, o, x)| > 0;
    var g :| g in Defining(defs, defs.Keys, o, x);
  }

  // ---- the layout, taken apart ----

  function RetainedOf(defs: Defs, owned: seq<CRD>, orders: seq<int>): seq<CRD> {
    if orders == [] then [] else RetainedAt(defs, owned, orders[0]) + RetainedOf(defs, owned, orders[1..])
  }

  lemma {:induction false} LaidOfSum(defs: Defs, owned: seq<CRD>, generated: map<int, seq<CRD>>, a: seq<int>,
                                     b: seq<int>)
    ensures LaidFull(defs, owned, generated, a + b)
            == LaidFull(defs, owned, generated, a) + LaidFull(defs, owned, generated, b)
  {
    if a == [] {
      assert a + b == b;
    } else {
      HeadOfSum(a, b);
      LaidOfSum(defs, owned, generated, a[1..], b);
      Assoc(At(generated, a[0]) + RetainedAt(defs, owned, a[0]), LaidFull(defs, owned, generated, a[1..]),
        LaidFull(defs, owned, generated, b));
    }
  }

  lemma {:induction false} LaidCount(defs: Defs, owned: seq<CRD>, generated: map<int, seq<CRD>>, orders: seq<int>)
    ensures multiset(LaidFull(defs, owned, generated, orders))
            == multiset(Laid(orders, generated)) + multiset(RetainedOf(defs, owned, orders))
  {
    if orders != [] {
      LaidCount(defs, owned, generated, orders[1..]);
      var o, rest := orders[0], orders[1..];
      assert multiset(Laid(orders, generated)) == multiset(At(generated, o)) + multiset(Laid(rest, generated));
      assert multiset(RetainedOf(defs, owned, orders))
          == multiset(RetainedAt(defs, owned, o)) + multiset(RetainedOf(defs, owned, rest));
    }
  }

  /** The two kinds in the layout, each in the order of the buckets. */
  lemma {:induction false} LaidKinds(defs: Defs, owned: seq<CRD>, generated: map<int, seq<CRD>>, orders: seq<int>)
    requires HoldsGenerated(defs, generated) && WellKeyed(defs)
    ensures Retained(defs, LaidFull(defs, owned, generated, orders)) == RetainedOf(defs, owned, orders)
    ensures Generated(defs, LaidFull(defs, owned, generated, orders)) == Laid(orders, generated)
  {
    if orders != [] {
      var o := orders[0];
      LaidKinds(defs, owned, generated, orders[1..]);
      BucketKinds(defs, owned, generated, o);
      FiltersOfSum(defs, At(generated, o) + RetainedAt(defs, owned, o), LaidFull(defs, owned, generated, orders[1..]));
    }
  }

  lemma BucketKinds(defs: Defs, owned: seq<CRD>, generated: map<int, seq<CRD>>, o: int)
    requires HoldsGenerated(defs, generated) && WellKeyed(defs)
    ensures Retained(defs, At(generated, o) + RetainedAt(defs, owned, o)) == RetainedAt(defs, owned, o)
    ensures Generated(defs, At(generated, o) + RetainedAt(defs, owned, o)) == At(generated, o)
  {
    forall x | x in At(generated, o) ensures !Retains(defs, x) {
      GeneratedElement(defs, generated, o, x);
    }
    FiltersOfSum(defs, At(generated, o), RetainedAt(defs, owned, o));
    FiltersOfGenerated(defs, At(generated, o));
    RetainedAtKinds(defs, owned, o);
  }

  lemma RetainedAtKinds(defs: Defs, owned: seq<CRD>, o: int)
    ensures Retained(defs, RetainedAt(defs, owned, o)) == RetainedAt(defs, owned, o)
    ensures Generated(defs, RetainedAt(defs, owned, o)) == []
  {
    var r := RetainedAt(defs, owned, o);
    if r != [] {
      assert r[1..] == [];
    }
  }

  // ---- retained descriptions keep their order ----

  ghost predicate Ascending(orders: seq<int>) {
    forall i, j :: 0 <= i < j < |orders| ==> orders[i] < orders[j]
  }

  /** `orders` has every index in [lo, hi) that is retained, and no other retained index. */
  ghost predicate CoversRange(defs: Defs, owned: seq<CRD>, orders: seq<int>, lo: nat, hi: nat)
    requires lo <= hi <= |owned|
  {
    && (forall i :: lo <= i < hi && Retains(defs, owned[i]) ==> i in orders)
    && forall o :: o in orders && 0 <= o < |owned| && Retains(defs, owned[o]) ==> lo <= o < hi
  }

  lemma {:induction false} RetainedOfRange(defs: Defs, owned: seq<CRD>, orders: seq<int>, lo: nat, hi: nat)
    requires lo <= hi <= |owned| && Ascending(orders) && CoversRange(defs, owned, orders, lo, hi)
    ensures RetainedOf(defs, owned, orders) == Retained(defs, owned[lo..hi])
    decreases |orders| + hi - lo
  {
    if orders != [] && RetainedAt(defs, owned, orders[0]) == [] {
      assert orders == [orders[0]] + orders[1..];
      RetainedOfRange(defs, owned, orders[1..], lo, hi);
    } else if orders == [] {
      NothingRetained(defs, owned, lo, hi);
    } else {
      var k := orders[0];
      assert k in orders && lo <= k < hi;
      if lo < k {
        assert lo !in orders;
        RetainedOfRange(defs, owned, orders, lo + 1, hi);
        assert owned[lo..hi][1..] == owned[lo + 1..hi] && owned[lo..hi][0] == owned[lo];
      } else {
        assert orders == [k] + orders[1..];
        RetainedOfRange(defs, owned, orders[1..], lo + 1, hi);
        assert owned[lo..hi][1..] == owned[lo + 1..hi] && owned[lo..hi][0] == owned[lo];
      }
    }
  }

  lemma {:induction false} NothingRetained(defs: Defs, owned: seq<CRD>, lo: nat, hi: nat)
    requires lo <= hi <= |owned| && forall i :: lo <= i < hi ==> !Retains(defs, owned[i])
    ensures Retained(defs, owned[lo..hi]) == []
    decreases hi - lo
  {
    if lo < hi {
      NothingRetained(defs, owned, lo + 1, hi);
      assert owned[lo..hi][1..] == owned[lo + 1..hi] && owned[lo..hi][0] == owned[lo];
    }
  }

  lemma SortedDistinctAscends(orders: seq<int>)
    requires Sorted(IntLeq, orders) && NoDuplicates(orders)
    ensures Ascending(orders)
  {
    forall i, j | 0 <= i < j < |orders| ensures orders[i] < orders[j] {
      assert IntLeq(orders[i], orders[j]) && orders[i] != orders[j];
    }
  }

  lemma OrdersCover(defs: Defs, owned: seq<CRD>, generated: map<int, seq<CRD>>, orders: seq<int>)
    requires forall o :: o in orders <==> o in generated || RetainedAt(defs, owned, o) != []
    ensures CoversRange(defs, owned, orders, 0, |owned|)
  {
    forall i | 0 <= i < |owned| && Retains(defs, owned[i]) ensures i in orders {
      assert RetainedAt(defs, owned, i) != [];
    }
  }

  // ---- conservation ----

  /** The keys whose generated description is `c`, whatever its order. */
  ghost function Describing(defs: Defs, c: CRD): set<GVK> { set g | g in defs && defs[g].crd == c }

  ghost function DescribingAt(defs: Defs, orders: seq<int>, c: CRD): set<GVK> {
    set g | g in defs && defs[g].crd == c && defs[g].order in orders
  }

  lemma {:induction false} LaidGeneratedCount(defs: Defs, generated: map<int, seq<CRD>>, orders: seq<int>, c: CRD)
    requires HoldsGenerated(defs, generated) && NoDuplicates(orders)
    ensures multiset(Laid(orders, generated))[c] == |DescribingAt(defs, orders, c)|
  {
    if orders == [] {
      assert DescribingAt(defs, orders, c) == {};
    } else {
      LaidGeneratedCount(defs, generated, orders[1..], c);
      DescribingHead(defs, orders, c);
    }
  }

  lemma DescribingHead(defs: Defs, orders: seq<int>, c: CRD)
    requires NoDuplicates(orders) && orders != []
    ensures |DescribingAt(defs, orders, c)|
            == |Defining(defs, defs.Keys, orders[0], c)| + |DescribingAt(defs, orders[1..], c)|
  {
    var here, later := Defining(defs, defs.Keys, orders[0], c), DescribingAt(defs, orders[1..], c);
    assert forall o :: o in orders <==> o == orders[0] || o in orders[1..];
    assert orders[0] !in orders[1..];
    assert DescribingAt(defs, orders, c) == here + later && here !! later;
  }

  /** Every generated description is in the new list as often as it is generated, and every
      owned description that is not generated as often as it was there. */
  lemma UpdateConserves(compare: Compare, defs: Defs, owned: seq<CRD>, updated: seq<CRD>, c: CRD)
    requires Updated(compare, defs, owned, updated)
    ensures multiset(updated)[c] == |Describing(defs, c)| + multiset(Retained(defs, owned))[c]
  {
    var generated, orders :| UpdatedBy(compare, defs, owned, updated, generated, orders);
    LaidCount(defs, owned, generated, orders);
    LaidGeneratedCount(defs, generated, orders, c);
    AllOrdersLaid(defs, generated, orders, c);
    SortedDistinctAscends(orders);
    OrdersCover(defs, owned, generated, orders);
    RetainedOfRange(defs, owned, orders, 0, |owned|);
    assert owned[0..|owned|] == owned;
  }

  lemma AllOrdersLaid(defs: Defs, generated: map<int, seq<CRD>>, orders: seq<int>, c: CRD)
    requires HoldsGenerated(defs, generated) && forall o :: o in generated ==> o in orders
    ensures DescribingAt(defs, orders, c) == Describing(defs, c)
  {
    forall g | g in Describing(defs, c) ensures defs[g].order in orders {
      var o := defs[g].order;
      assert g in Defining(defs, defs.Keys, o, c);
      assert |Defining(defs, defs.Keys, o, c)| > 0;
      assert multiset(At(generated, o))[c] > 0;
    }
  }

  // ---- order ----

  /** Generated descriptions are in the order of their buckets and sorted within each. */
  predicate ByOrder(compare: Compare, defs: Defs, x: CRD, y: CRD)
    requires !Retains(defs, x) && !Retains(defs, y)
  {
    || defs[GVKOf(x)].order < defs[GVKOf(y)].order
    || (defs[GVKOf(x)].order == defs[GVKOf(y)].order && CRDLeq(compare)(x, y))
  }

  ghost predicate SortedByOrder(compare: Compare, defs: Defs, s: seq<CRD>) {
    && (forall x :: x in s ==> !Retains(defs, x))
    && forall i, j :: 0 <= i < j < |s| ==> ByOrder(compare, defs, s[i], s[j])
  }

  lemma {:induction false} LaidIsSorted(compare: Compare, defs: Defs, generated: map<int, seq<CRD>>, orders: seq<int>)
    requires HoldsGenerated(defs, generated) && WellKeyed(defs) && EachSorted(compare, generated) && Ascending(orders)
    ensures SortedByOrder(compare, defs, Laid(orders, generated))
    ensures forall x :: x in Laid(orders, generated) ==> defs[GVKOf(x)].order in orders
  {
    if orders != [] {
      var o := orders[0];
      var bucket, more := At(generated, o), Laid(orders[1..], generated);
      LaidIsSorted(compare, defs, generated, orders[1..]);
      forall x | x in bucket ensures !Retains(defs, x) && defs[GVKOf(x)].order == o {
        GeneratedElement(defs, generated, o, x);
      }
      forall x | x in more ensures defs[GVKOf(x)].order > o && defs[GVKOf(x)].order in orders {
        var i :| 0 <= i < |orders[1..]| && orders[1..][i] == defs[GVKOf(x)].order;
        assert orders[i + 1] == defs[GVKOf(x)].order;
      }
      SortedByOrderSum(compare, defs, o, bucket, more);
    }
  }

  lemma SortedByOrderSum(compare: Compare, defs: Defs, o: int, bucket: seq<CRD>, more: seq<CRD>)
    requires SortedByOrder(compare, defs, more) && Sorted(CRDLeq(compare), bucket)
    requires forall x :: x in bucket ==> !Retains(defs, x) && defs[GVKOf(x)].order == o
    requires forall x :: x in more ==> defs[GVKOf(x)].order > o
    ensures SortedByOrder(compare, defs, bucket + more)
  {
    var all := bucket + more;
    forall i, j | 0 <= i < j < |all| ensures ByOrder(compare, defs, all[i], all[j]) {
      if j < |bucket| {
        assert all[i] in bucket && all[j] in bucket && CRDLeq(compare)(bucket[i], bucket[j]);
      } else if i < |bucket| {
        assert all[i] in bucket && all[j] == more[j - |bucket|] && all[j] in more;
      } else {
        assert all[i] == more[i - |bucket|] && all[j] == more[j - |bucket|];
      }
    }
  }

  /** The generated descriptions appear by ascending order, sorted within the same order. */
  lemma GeneratedInOrder(compare: Compare, defs: Defs, owned: seq<CRD>, updated: seq<CRD>)
    requires Updated(compare, defs, owned, updated) && WellKeyed(defs)
    ensures SortedByOrder(compare, defs, Generated(defs, updated))
  {
    var generated, orders :| UpdatedBy(compare, defs, owned, updated, generated, orders);
    LaidKinds(defs, owned, generated, orders);
    SortedDistinctAscends(orders);
    LaidIsSorted(compare, defs, generated, orders);
  }

  /** `before` and `after` surround the retained description at index `k`: what was retained
      before it and after it stays there in the old order, and it follows exactly the generated
      descriptions of orders up to `k`. */
  ghost predicate InPlace(defs: Defs, owned: seq<CRD>, updated: seq<CRD>, k: nat, before: seq<CRD>, after: seq<CRD>)
    requires k < |owned|
  {
    && updated == (before + [owned[k]]) + after
    && Retained(defs, before) == Retained(defs, owned[..k]) && Retained(defs, after) == Retained(defs, owned[k + 1..])
    && (forall x :: x in Generated(defs, before) ==> !Retains(defs, x) && defs[GVKOf(x)].order <= k)
    && (forall x :: x in Generated(defs, after) ==> !Retains(defs, x) && defs[GVKOf(x)].order > k)
  }

  lemma RetainedInPlace(compare: Compare, defs: Defs, owned: seq<CRD>, updated: seq<CRD>, k: nat)
    requires Updated(compare, defs, owned, updated) && WellKeyed(defs)
    requires k < |owned| && Retains(defs, owned[k])
    ensures exists before, after :: InPlace(defs, owned, updated, k, before, after)
  {
    var generated, orders :| UpdatedBy(compare, defs, owned, updated, generated, orders);
    SortedDistinctAscends(orders);
    OrdersCover(defs, owned, generated, orders);
    assert RetainedAt(defs, owned, k) != [];
    var j :| 0 <= j < |orders| && orders[j] == k;
    PlaceInLayout(compare, defs, owned, generated, orders, j, k);
  }

  lemma {:induction false} PlaceInLayout(
    compare: Compare, defs: Defs, owned: seq<CRD>, generated: map<int, seq<CRD>>, orders: seq<int>, j: nat, k: nat)
    requires HoldsGenerated(defs, generated) && WellKeyed(defs) && EachSorted(compare, generated)
    requires Ascending(orders) && CoversRange(defs, owned, orders, 0, |owned|)
    requires j < |orders| && orders[j] == k < |owned| && Retains(defs, owned[k])
    ensures InPlace(defs, owned, LaidFull(defs, owned, generated, orders), k,
              LaidFull(defs, owned, generated, orders[..j]) + At(generated, k),
              LaidFull(defs, owned, generated, orders[j + 1..]))
  {
    LaidAround(defs, owned, generated, orders, j, k);
    LowerHalf(defs, owned, orders, j, k);
    UpperHalf(defs, owned, orders, j, k);
    BeforeAndAfter(compare, defs, owned, generated, orders[..j], k, orders[j + 1..]);
  }

  lemma {:induction false} LaidAround(defs: Defs, owned: seq<CRD>, generated: map<int, seq<CRD>>, orders: seq<int>,
                                      j: nat, k: nat)
    requires j < |orders| && orders[j] == k < |owned| && Retains(defs, owned[k])
    ensures LaidFull(defs, owned, generated, orders)
            == ((LaidFull(defs, owned, generated, orders[..j]) + At(generated, k)) + [owned[k]])
               + LaidFull(defs, owned, generated, orders[j + 1..])
  {
    assert orders == orders[..j] + orders[j..] && orders[j..][0] == k && orders[j..][1..] == orders[j + 1..];
    LaidOfSum(defs, owned, generated, orders[..j], orders[j..]);
    var low, high := LaidFull(defs, owned, generated, orders[..j]), LaidFull(defs, owned, generated, orders[j + 1..]);
    assert RetainedAt(defs, owned, k) == [owned[k]];
    Assoc(low, At(generated, k) + [owned[k]], high);
    Assoc(low, At(generated, k), [owned[k]]);
  }

  ghost predicate AllBelow(orders: seq<int>, k: int) { forall i :: 0 <= i < |orders| ==> orders[i] < k }

  ghost predicate AllAbove(orders: seq<int>, k: int) { forall i :: 0 <= i < |orders| ==> orders[i] > k }

  lemma LowerHalf(defs: Defs, owned: seq<CRD>, orders: seq<int>, j: nat, k: nat)
    requires Ascending(orders) && CoversRange(defs, owned, orders, 0, |owned|)
    requires j < |orders| && orders[j] == k < |owned|
    ensures RetainedOf(defs, owned, orders[..j]) == Retained(defs, owned[..k])
    ensures Ascending(orders[..j]) && AllBelow(orders[..j], k)
  {
    forall i | 0 <= i < k && Retains(defs, owned[i]) ensures i in orders[..j] {
      assert i in orders;
      var m :| 0 <= m < |orders| && orders[m] == i;
      assert m < j && orders[..j][m] == i;
    }
    RetainedOfRange(defs, owned, orders[..j], 0, k);
    assert owned[0..k] == owned[..k];
  }

  lemma AscendingTail(orders: seq<int>, j: nat)
    requires Ascending(orders) && j < |orders|
    ensures Ascending(orders[j + 1..]) && AllAbove(orders[j + 1..], orders[j])
  {
    var above := orders[j + 1..];
    forall m | 0 <= m < |above| ensures above[m] == orders[j + 1 + m] > orders[j] {}
  }

  lemma {:induction false} FoundAbove(orders: seq<int>, j: nat, i: int)
    requires Ascending(orders) && j < |orders| && i in orders && i > orders[j]
    ensures i in orders[j + 1..]
  {
    var m :| 0 <= m < |orders| && orders[m] == i;
    assert m > j;
    assert orders[j + 1..][m - j - 1] == i;
  }

  lemma {:induction false} UpperHalf(defs: Defs, owned: seq<CRD>, orders: seq<int>, j: nat, k: nat)
    requires Ascending(orders) && CoversRange(defs, owned, orders, 0, |owned|)
    requires j < |orders| && orders[j] == k < |owned|
    ensures RetainedOf(defs, owned, orders[j + 1..]) == Retained(defs, owned[k + 1..])
    ensures Ascending(orders[j + 1..]) && AllAbove(orders[j + 1..], k)
  {
    var above := orders[j + 1..];
    AscendingTail(orders, j);
    forall i | k + 1 <= i < |owned| && Retains(defs, owned[i]) ensures i in above {
      assert i in orders;
      FoundAbove(orders, j, i);
    }
    RetainedOfRange(defs, owned, above, k + 1, |owned|);
    assert owned[k + 1..|owned|] == owned[k + 1..];
  }

  lemma BeforeAndAfter(
    compare: Compare, defs: Defs, owned: seq<CRD>, generated: map<int, seq<CRD>>, low: seq<int>, k: nat, high: seq<int>)
    requires HoldsGenerated(defs, generated) && WellKeyed(defs) && EachSorted(compare, generated)
    requires Ascending(low) && Ascending(high) && AllBelow(low, k) && AllAbove(high, k)
    ensures var before := LaidFull(defs, owned, generated, low) + At(generated, k);
            && Retained(defs, before) == RetainedOf(defs, owned, low)
            && forall x :: x in Generated(defs, before) ==> !Retains(defs, x) && defs[GVKOf(x)].order <= k
    ensures var after := LaidFull(defs, owned, generated, high);
            && Retained(defs, after) == RetainedOf(defs, owned, high)
            && forall x :: x in Generated(defs, after) ==> !Retains(defs, x) && defs[GVKOf(x)].order > k
  {
    LaidKinds(defs, owned, generated, low);
    LaidKinds(defs, owned, generated, high);
    LaidIsSorted(compare, defs, generated, low);
    LaidIsSorted(compare, defs, generated, high);
    forall x | x in At(generated, k) ensures !Retains(defs, x) && defs[GVKOf(x)].order == k {
      GeneratedElement(defs, generated, k, x);
    }
    FiltersOfGenerated(defs, At(generated, k));
    FiltersOfSum(defs, LaidFull(defs, owned, generated, low), At(generated, k));
  }

  // ---- the order of generated descriptions ----

  /** Of two generated descriptions the one of the smaller order comes first; of the same order
      the one of the smaller name, then of the smaller kind, then of the newer version. */
  lemma GeneratedPairInOrder(compare: Compare, defs: Defs, owned: seq<CRD>, updated: seq<CRD>, i: nat, j: nat)
    requires Updated(compare, defs, owned, updated) && WellKeyed(defs)
    requires i < j < |Generated(defs, updated)|
    ensures var x, y := Generated(defs, updated)[i], Generated(defs, updated)[j];
            && GVKOf(x) in defs && GVKOf(y) in defs
            && defs[GVKOf(x)].order <= defs[GVKOf(y)].order
            && (defs[GVKOf(x)].order == defs[GVKOf(y)].order ==>
                  && StrLeq(x.name, y.name)
                  && (x.name == y.name ==> StrLeq(x.kind, y.kind))
                  && (x.name == y.name && x.kind == y.kind ==> compare(y.version, x.version) <= 0))
  {
    GeneratedInOrder(compare, defs, owned, updated);
    StrLeqIsTotalOrder();
    GeneratedAreNotRetained(defs, updated);
    var x, y := Generated(defs, updated)[i], Generated(defs, updated)[j];
    assert x in Generated(defs, updated) && y in Generated(defs, updated);
    assert ByOrder(compare, defs, x, y);
  }

  lemma {:induction false} GeneratedAreNotRetained(defs: Defs, s: seq<CRD>)
    ensures forall x :: x in Generated(defs, s) ==> GVKOf(x) in defs
  {
    if s != [] { GeneratedAreNotRetained(defs, s[1..]); }
  }

  /** A description is retained exactly if its group, version and kind are not generated; its
      group is what follows the first dot of its name. */
  lemma RetainsIff(defs: Defs, d: CRD, plural: string, group: string)
    requires d.name == plural + ("." + group) && '.' !in plural
    ensures Retains(defs, d) <==> GVK(group, d.version, d.kind) !in defs
  {
    GroupOfName(plural, group);
  }
}
