/** Updating the owned CRD descriptions of a CSV with generated ones, bucket by bucket. */
module Definitions {
  import opened Seqs
  import opened Sorting

  datatype GVK = GVK(group: string, version: string, kind: string)

  /** A CRD description; `body` stands for the fields that play no part in ordering. */
  datatype CRD = CRD(name: string, version: string, kind: string, body: string)

  /** A generated description and the order its markers ask for. */
  datatype Values = Values(order: int, crd: CRD)

  type Defs = map<GVK, Values>
  type Compare = (string, string) -> int

  /** What is assumed of the version comparison, which is positive for a newer first argument. */
  ghost predicate IsComparison(compare: Compare) {
    && (forall a, b :: compare(a, b) > 0 <==> compare(b, a) < 0)
    && (forall a, b, c :: compare(a, b) >= 0 && compare(b, c) >= 0 ==> compare(a, c) >= 0)
  }

  /** The comparison of CRD descriptions: by name, by kind, then newest version first. */
  predicate Less(compare: Compare, x: CRD, y: CRD) {
    if x.name == y.name then
      if x.kind == y.kind then compare(x.version, y.version) > 0
      else StrLeq(x.kind, y.kind)
    else StrLeq(x.name, y.name)
  }

  function CRDLeq(compare: Compare): (CRD, CRD) -> bool {
    (x, y) => !Less(compare, y, x)
  }

  lemma {:induction false} CRDLeqIsPreorder(compare: Compare)
    requires IsComparison(compare)
    ensures TotalPreorder(CRDLeq(compare))
  {
    StrLeqIsTotalOrder();
    forall x, y, z | CRDLeq(compare)(x, y) && CRDLeq(compare)(y, z) ensures CRDLeq(compare)(x, z) {
      if x.name == y.name == z.name {
        if x.kind == y.kind == z.kind {
          assert compare(x.version, y.version) >= 0 && compare(y.version, z.version) >= 0;
        }
      }
    }
  }

  /** What follows the first dot of a CRD name, or all of it when there is none. */
  function FullGroupFromName(name: string): string {
    if '.' in name then AfterFirstDot(name) else name
  }

  function AfterFirstDot(name: string): string
    requires '.' in name
  {
    if name[0] == '.' then name[1..] else AfterFirstDot(name[1..])
  }

  function GVKOf(d: CRD): GVK { GVK(FullGroupFromName(d.name), d.version, d.kind) }

  /** A name built from a plural and a group gives the group back if the plural has no dot. */
  lemma {:induction false} GroupOfName(plural: string, group: string)
    requires '.' !in plural
    ensures FullGroupFromName(plural + ("." + group)) == group
  {
    var name := plural + ("." + group);
    assert name[|plural|] == '.';
    if plural == "" {
      assert name == "." + group && name[1..] == group;
    } else {
      assert name[0] == plural[0] && name[1..] == plural[1..] + ("." + group);
      assert plural[0] in plural;
      GroupOfName(plural[1..], group);
      assert name[1..][|plural| - 1] == '.';
    }
  }

  // ---- buckets ----

  function InBucket(defs: Defs, walk: seq<GVK>, o: int): seq<CRD>
    requires forall g :: g in walk ==> g in defs
  {
    if walk == [] then []
    else (if defs[walk[0]].order == o then [defs[walk[0]].crd] else []) + InBucket(defs, walk[1..], o)
  }

  lemma {:induction false} InBucketAfter(defs: Defs, walk: seq<GVK>, g: GVK, o: int)
    requires g in defs && forall h :: h in walk ==> h in defs
    ensures InBucket(defs, walk + [g], o) == InBucket(defs, walk, o) + if defs[g].order == o then [defs[g].crd] else []
  {
    if walk == [] {
      assert [] + [g] == [g] && [g][1..] == [];
    } else {
      HeadOfSum(walk, [g]);
      InBucketAfter(defs, walk[1..], g, o);
      Assoc(if defs[walk[0]].order == o then [defs[walk[0]].crd] else [], InBucket(defs, walk[1..], o),
        if defs[g].order == o then [defs[g].crd] else []);
    }
  }

  /** The keys among `keys` that generate this description with this order. */
  ghost function Defining(defs: Defs, keys: set<GVK>, o: int, c: CRD): set<GVK> {
    set g | g in keys && g in defs && defs[g] == Values(o, c)
  }

  lemma {:induction false} InBucketCount(defs: Defs, walk: seq<GVK>, o: int, c: CRD)
    requires NoDuplicates(walk) && forall g :: g in walk ==> g in defs
    ensures multiset(InBucket(defs, walk, o))[c] == |Defining(defs, Elements(walk), o, c)|
  {
    if walk != [] {
      var g, rest := walk[0], walk[1..];
      HeadOfDistinct(walk);
      InBucketCount(defs, rest, o, c);
      DefiningWith(defs, Elements(rest), g, o, c);
      assert InBucket(defs, walk, o) == (if defs[g].order == o then [defs[g].crd] else []) + InBucket(defs, rest, o);
    }
  }

  lemma DefiningWith(defs: Defs, keys: set<GVK>, g: GVK, o: int, c: CRD)
    requires g in defs && g !in keys
    ensures |Defining(defs, keys + {g}, o, c)|
            == |Defining(defs, keys, o, c)| + if defs[g] == Values(o, c) then 1 else 0
  {
    assert Defining(defs, keys + {g}, o, c) == Defining(defs, keys, o, c) + if defs[g] == Values(o, c) then {g} else {};
  }

  function At(buckets: map<int, seq<CRD>>, o: int): seq<CRD> { if o in buckets then buckets[o] else [] }

  /** The generated buckets: every description in the bucket of its order as often as it is
      generated, no bucket empty. */
  ghost predicate HoldsGenerated(defs: Defs, buckets: map<int, seq<CRD>>) {
    && (forall o :: o in buckets ==> buckets[o] != [])
    && forall o, c :: multiset(At(buckets, o))[c] == |Defining(defs, defs.Keys, o, c)|
  }

  ghost predicate EachSorted(compare: Compare, buckets: map<int, seq<CRD>>) {
    forall o :: o in buckets ==> Sorted(CRDLeq(compare), buckets[o])
  }

  ghost predicate Filled(defs: Defs, walk: seq<GVK>, buckets: map<int, seq<CRD>>)
    requires forall g :: g in walk ==> g in defs
  {
    forall o :: (o in buckets ==> buckets[o] != []) && At(buckets, o) == InBucket(defs, walk, o)
  }

  lemma FilledAfter(defs: Defs, walk: seq<GVK>, g: GVK, buckets: map<int, seq<CRD>>)
    requires g in defs && (forall h :: h in walk ==> h in defs) && Filled(defs, walk, buckets)
    ensures Filled(defs, walk + [g], buckets[defs[g].order := At(buckets, defs[g].order) + [defs[g].crd]])
  {
    var after := buckets[defs[g].order := At(buckets, defs[g].order) + [defs[g].crd]];
    forall o ensures At(after, o) == InBucket(defs, walk + [g], o) {
      InBucketAfter(defs, walk, g, o);
    }
  }

  method FillBuckets(defs: Defs) returns (buckets: map<int, seq<CRD>>)
    ensures HoldsGenerated(defs, buckets)
  {
    var walk := RangeOver(defs);
    buckets := map[];
    for i := 0 to |walk|
      invariant Filled(defs, walk[..i], buckets)
    {
      var v := defs[walk[i]];
      assert walk[..i + 1] == walk[..i] + [walk[i]];
      FilledAfter(defs, walk[..i], walk[i], buckets);
      buckets := buckets[v.order := (if v.order in buckets then buckets[v.order] else []) + [v.crd]];
    }
    assert walk[..|walk|] == walk && Elements(walk) == defs.Keys;
    forall o, c ensures multiset(At(buckets, o))[c] == |Defining(defs, defs.Keys, o, c)| {
      InBucketCount(defs, walk, o, c);
    }
  }

  /** `sort.Slice` of a bucket. */
  method SortBucket(compare: Compare, bucket: seq<CRD>) returns (r: seq<CRD>)
    requires IsComparison(compare)
    ensures Sorted(CRDLeq(compare), r) && multiset(r) == multiset(bucket)
  {
    CRDLeqIsPreorder(compare);
    SortSorts(CRDLeq(compare), bucket);
    r := Sort(CRDLeq(compare), bucket);
  }

  method SortBuckets(compare: Compare, all: map<int, seq<CRD>>) returns (buckets: map<int, seq<CRD>>)
    requires IsComparison(compare)
    ensures EachSorted(compare, buckets) && buckets.Keys == all.Keys
    ensures forall o :: o in all ==> multiset(buckets[o]) == multiset(all[o])
  {
    var walk := RangeOver(all);
    buckets := all;
    for i := 0 to |walk|
      invariant buckets.Keys == all.Keys
      invariant forall o :: o in all ==> multiset(buckets[o]) == multiset(all[o])
      invariant forall o :: o in walk[..i] ==> o in buckets && Sorted(CRDLeq(compare), buckets[o])
    {
      assert walk[i] in all;
      var bucket := SortBucket(compare, buckets[walk[i]]);
      buckets := buckets[walk[i] := bucket];
      assert walk[..i + 1] == walk[..i] + [walk[i]];
    }
    assert walk[..|walk|] == walk;
  }

  // ---- the retained descriptions ----

  predicate Retains(defs: Defs, d: CRD) { GVKOf(d) !in defs }

  /** The description of the old list that goes into bucket `o`: the one at that index, unless
      it is generated. */
  function RetainedAt(defs: Defs, owned: seq<CRD>, o: int): seq<CRD> {
    if 0 <= o < |owned| && Retains(defs, owned[o]) then [owned[o]] else []
  }

  /** The final buckets: the generated ones, each followed by the one retained at its order. */
  ghost predicate Full(defs: Defs, owned: seq<CRD>, generated: map<int, seq<CRD>>, buckets: map<int, seq<CRD>>) {
    forall o: int :: FullAt(defs, owned, generated, buckets, o)
  }

  predicate FullAt(defs: Defs, owned: seq<CRD>, generated: map<int, seq<CRD>>, buckets: map<int, seq<CRD>>, o: int) {
    && (o in buckets <==> o in generated || RetainedAt(defs, owned, o) != [])
    && At(buckets, o) == At(generated, o) + RetainedAt(defs, owned, o)
  }

  lemma RetainedAtAfter(defs: Defs, owned: seq<CRD>, d: CRD, o: int)
    ensures RetainedAt(defs, owned + [d], o)
            == if o == |owned| then (if Retains(defs, d) then [d] else []) else RetainedAt(defs, owned, o)
  {
  }

  lemma FullAfter(defs: Defs, owned: seq<CRD>, d: CRD, generated: map<int, seq<CRD>>, buckets: map<int, seq<CRD>>,
                  after: map<int, seq<CRD>>)
    requires Full(defs, owned, generated, buckets)
    requires after == if Retains(defs, d) then buckets[|owned| := At(buckets, |owned|) + [d]] else buckets
    ensures Full(defs, owned + [d], generated, after)
  {
    forall o: int ensures FullAt(defs, owned + [d], generated, after, o) {
      RetainedAtAfter(defs, owned, d, o);
      assert FullAt(defs, owned, generated, buckets, o);
      assert At(generated, o) + [] == At(generated, o);
    }
  }

  method AppendRetained(defs: Defs, owned: seq<CRD>, generated: map<int, seq<CRD>>)
    returns (buckets: map<int, seq<CRD>>)
    ensures Full(defs, owned, generated, buckets)
  {
    buckets := generated;
    for i := 0 to |owned|
      invariant Full(defs, owned[..i], generated, buckets)
    {
      assert owned[..i + 1] == owned[..i] + [owned[i]];
      ghost var before := buckets;
      if GVKOf(owned[i]) !in defs {
        buckets := buckets[i := (if i in buckets then buckets[i] else []) + [owned[i]]];
      }
      FullAfter(defs, owned[..i], owned[i], generated, before, buckets);
    }
    assert owned[..|owned|] == owned;
  }

  function Laid(orders: seq<int>, buckets: map<int, seq<CRD>>): seq<CRD> {
    if orders == [] then [] else At(buckets, orders[0]) + Laid(orders[1..], buckets)
  }

  /** The new list: the full buckets by ascending order. */
  ghost predicate Updated(compare: Compare, defs: Defs, owned: seq<CRD>, updated: seq<CRD>) {
    exists generated: map<int, seq<CRD>>, orders: seq<int> ::
      UpdatedBy(compare, defs, owned, updated, generated, orders)
  }

  ghost predicate UpdatedBy(
    compare: Compare, defs: Defs, owned: seq<CRD>, updated: seq<CRD>, generated: map<int, seq<CRD>>, orders: seq<int>)
  {
    && HoldsGenerated(defs, generated) && EachSorted(compare, generated)
    && Sorted(IntLeq, orders) && NoDuplicates(orders)
    && (forall o :: o in orders <==> o in generated || RetainedAt(defs, owned, o) != [])
    && updated == LaidFull(defs, owned, generated, orders)
  }

  function LaidFull(defs: Defs, owned: seq<CRD>, generated: map<int, seq<CRD>>, orders: seq<int>): seq<CRD> {
    if orders == [] then []
    else (At(generated, orders[0]) + RetainedAt(defs, owned, orders[0])) + LaidFull(defs, owned, generated, orders[1..])
  }

  lemma {:induction false} LaidIsFull(defs: Defs, owned: seq<CRD>, generated: map<int, seq<CRD>>,
                                      buckets: map<int, seq<CRD>>, orders: seq<int>)
    requires Full(defs, owned, generated, buckets)
    ensures Laid(orders, buckets) == LaidFull(defs, owned, generated, orders)
  {
    if orders != [] {
      assert FullAt(defs, owned, generated, buckets, orders[0]);
      LaidIsFull(defs, owned, generated, buckets, orders[1..]);
    }
  }

  method LayOut(orders: seq<int>, buckets: map<int, seq<CRD>>) returns (laid: seq<CRD>)
    requires forall o :: o in orders ==> o in buckets
    ensures laid == Laid(orders, buckets)
  {
    laid := [];
    ghost var rest := orders;
    for i := 0 to |orders|
      invariant rest == orders[i..] && laid + Laid(rest, buckets) == Laid(orders, buckets)
    {
      Assoc(laid, buckets[orders[i]], Laid(rest[1..], buckets));
      laid := laid + buckets[orders[i]];
      rest := rest[1..];
    }
  }

  lemma SortedKeysAreDistinct(walk: seq<int>, orders: seq<int>)
    requires NoDuplicates(walk) && multiset(orders) == multiset(walk)
    ensures NoDuplicates(orders) && forall o :: o in orders <==> o in walk
  {
    forall o ensures o in orders <==> o in walk {
      assert o in multiset(orders) <==> o in multiset(walk);
    }
    assert |orders| == |multiset(orders)| == |walk| && Elements(orders) == Elements(walk);
    ElementCount(walk);
    ElementCount(orders);
  }

  class CSV {
    var owned: seq<CRD>

    method UpdateDefinitionsByKey(compare: Compare, defs: Defs)
      requires IsComparison(compare)
      modifies this
      ensures Updated(compare, defs, old(owned), owned)
    {
      var filled := FillBuckets(defs);
      var generated := SortBuckets(compare, filled);
      assert HoldsGenerated(defs, generated) by {
        forall o, c ensures multiset(At(generated, o))[c] == |Defining(defs, defs.Keys, o, c)| {
          assert multiset(At(generated, o)) == multiset(At(filled, o));
        }
        forall o | o in generated ensures generated[o] != [] {
          assert |multiset(generated[o])| == |multiset(filled[o])|;
        }
      }
      var buckets := AppendRetained(defs, owned, generated);
      var walk := RangeOver(buckets);
      IntLeqIsTotalOrder();
      SortSorts(IntLeq, walk);
      var orders := Sort(IntLeq, walk);
      SortedKeysAreDistinct(walk, orders);
      LaidIsFull(defs, owned, generated, buckets, orders);
      forall o ensures o in orders <==> o in generated || RetainedAt(defs, owned, o) != [] {
        assert FullAt(defs, owned, generated, buckets, o);
      }
      var laid := LayOut(orders, buckets);
      assert UpdatedBy(compare, defs, owned, laid, generated, orders);
      owned := laid;
    }
  }
}
