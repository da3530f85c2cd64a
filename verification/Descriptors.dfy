/** Spec and status descriptors: bucketed by order, each bucket sorted by path, and deleted once
    it was put out because orders repeat. */
module Descriptors {
  import opened Seqs
  import opened Sorting

  datatype Descriptor = Descriptor(path: string, displayName: string, description: string, xDescriptors: seq<string>)

  /** A marked field: its order, whether it gives a descriptor at all, and which. */
  datatype Field = Field(order: int, included: bool, descriptor: Descriptor)

  predicate PathLeq(x: Field, y: Field) { StrLeq(x.descriptor.path, y.descriptor.path) }

  /** By order and then by path. */
  predicate FieldLeq(x: Field, y: Field) { x.order < y.order || (x.order == y.order && PathLeq(x, y)) }

  lemma PathLeqIsPreorder()
    ensures TotalPreorder(PathLeq)
  {
    StrLeqIsTotalOrder();
  }

  lemma FieldLeqIsPreorder()
    ensures TotalPreorder(FieldLeq)
  {
    StrLeqIsTotalOrder();
  }

  function Included(fields: seq<Field>): seq<Field> {
    if fields == [] then []
    else (if fields[0].included then [fields[0]] else []) + Included(fields[1..])
  }

  function Flatten(marked: map<string, seq<Field>>, order: seq<string>): seq<Field>
    requires forall t :: t in order ==> t in marked
  {
    if order == [] then [] else marked[order[0]] + Flatten(marked, order[1..])
  }

  function AtOrder(fields: seq<Field>, o: int): seq<Field> {
    if fields == [] then []
    else (if fields[0].order == o then [fields[0]] else []) + AtOrder(fields[1..], o)
  }

  function Orders(fields: seq<Field>): seq<int> {
    seq(|fields|, i requires 0 <= i < |fields| => fields[i].order)
  }

  function DescriptorsOf(fields: seq<Field>): seq<Descriptor> {
    seq(|fields|, i requires 0 <= i < |fields| => fields[i].descriptor)
  }

  lemma {:induction false} IncludedOfSum(a: seq<Field>, b: seq<Field>)
    ensures Included(a + b) == Included(a) + Included(b)
  {
    if a == [] {
      assert a + b == b;
    } else {
      HeadOfSum(a, b);
      IncludedOfSum(a[1..], b);
      Assoc(if a[0].included then [a[0]] else [], Included(a[1..]), Included(b));
    }
  }

  lemma {:induction false} AtOrderOfSum(a: seq<Field>, b: seq<Field>, o: int)
    ensures AtOrder(a + b, o) == AtOrder(a, o) + AtOrder(b, o)
  {
    if a == [] {
      assert a + b == b;
    } else {
      HeadOfSum(a, b);
      AtOrderOfSum(a[1..], b, o);
      Assoc(if a[0].order == o then [a[0]] else [], AtOrder(a[1..], o), AtOrder(b, o));
    }
  }

  lemma {:induction false} AtOrderCount(fields: seq<Field>, o: int, f: Field)
    ensures multiset(AtOrder(fields, o))[f] == if f.order == o then multiset(fields)[f] else 0
  {
    if fields != [] {
      assert fields == [fields[0]] + fields[1..];
      AtOrderCount(fields[1..], o, f);
    }
  }

  /** The buckets hold exactly these fields, by order. */
  ghost predicate Buckets(buckets: map<int, seq<Field>>, fields: seq<Field>) {
    forall o :: (o in buckets <==> AtOrder(fields, o) != []) && (o in buckets ==> buckets[o] == AtOrder(fields, o))
  }

  lemma {:induction false} BucketsAfter(buckets: map<int, seq<Field>>, fields: seq<Field>, f: Field)
    requires Buckets(buckets, fields)
    ensures Buckets(buckets[f.order := (if f.order in buckets then buckets[f.order] else []) + [f]], fields + [f])
  {
    forall o ensures AtOrder(fields + [f], o) == AtOrder(fields, o) + if f.order == o then [f] else [] {
      AtOrderOfSum(fields, [f], o);
    }
  }

  class Bucketing {
    var buckets: map<int, seq<Field>>
    var orders: seq<int>
    ghost var fields: seq<Field>

    ghost predicate Valid()
      reads this
    {
      Buckets(buckets, fields) && orders == Orders(fields)
    }

    constructor ()
      ensures Valid() && fields == []
    {
      buckets, orders, fields := map[], [], [];
    }

    /** Puts the included fields of one type into their buckets. */
    method AddFields(more: seq<Field>)
      requires Valid()
      modifies this
      ensures Valid() && fields == old(fields) + Included(more)
    {
      ghost var rest := more;
      for i := 0 to |more|
        invariant Valid() && rest == more[i..] && fields + Included(rest) == old(fields) + Included(more)
      {
        var f := more[i];
        Assoc(fields, [f], Included(rest[1..]));
        if f.included {
          BucketsAfter(buckets, fields, f);
          buckets := buckets[f.order := (if f.order in buckets then buckets[f.order] else []) + [f]];
          orders := orders + [f.order];
          fields := fields + [f];
        }
        rest := rest[1..];
      }
    }
  }

  /** `sort.Slice` by path. */
  method SortDescriptors(bucket: seq<Field>) returns (r: seq<Field>)
    ensures Sorted(PathLeq, r) && multiset(r) == multiset(bucket)
  {
    PathLeqIsPreorder();
    SortSorts(PathLeq, bucket);
    r := Sort(PathLeq, bucket);
  }

  method SortInts(s: seq<int>) returns (r: seq<int>)
    ensures Sorted(IntLeq, r) && multiset(r) == multiset(s)
  {
    IntLeqIsTotalOrder();
    SortSorts(IntLeq, s);
    r := Sort(IntLeq, s);
  }

  // ---- putting the buckets out ----

  /** Exactly the fields whose order is among these, by order and path. */
  ghost predicate PutOut(vals: seq<Field>, fields: seq<Field>, orders: seq<int>) {
    && Sorted(FieldLeq, vals)
    && forall f :: multiset(vals)[f] == if f.order in orders then multiset(fields)[f] else 0
  }

  /** The buckets of the orders not yet seen. */
  ghost predicate BucketsLeft(buckets: map<int, seq<Field>>, fields: seq<Field>, seen: seq<int>) {
    forall o ::
      && (o in buckets <==> AtOrder(fields, o) != [] && o !in seen)
      && (o in buckets ==> buckets[o] == AtOrder(fields, o))
  }

  lemma MembersByCount(vals: seq<Field>, x: Field)
    ensures x in vals <==> multiset(vals)[x] > 0
  {
    assert x in multiset(vals) <==> x in vals;
  }

  lemma SortedWithBucket(vals: seq<Field>, bucket: seq<Field>, o: int)
    requires Sorted(FieldLeq, vals) && forall f :: f in vals ==> f.order < o
    requires Sorted(PathLeq, bucket) && forall f :: f in bucket ==> f.order == o
    ensures Sorted(FieldLeq, vals + bucket)
  {
    var all := vals + bucket;
    forall i, j | 0 <= i < j < |all| ensures FieldLeq(all[i], all[j]) {
      if i >= |vals| {
        assert all[i] == bucket[i - |vals|] && all[j] == bucket[j - |vals|];
        assert all[i] in bucket && all[j] in bucket;
      } else if j >= |vals| {
        assert all[i] == vals[i] && all[j] == bucket[j - |vals|];
        assert all[i] in vals && all[j] in bucket;
      }
    }
  }

  /** Putting out a bucket whose order is new and at least the ones seen. */
  lemma PutOutBucket(vals: seq<Field>, fields: seq<Field>, seen: seq<int>, o: int, bucket: seq<Field>)
    requires PutOut(vals, fields, seen) && o !in seen && forall s :: s in seen ==> s <= o
    requires Sorted(PathLeq, bucket) && multiset(bucket) == multiset(AtOrder(fields, o))
    ensures PutOut(vals + bucket, fields, seen + [o])
  {
    forall f ensures multiset(bucket)[f] == if f.order == o then multiset(fields)[f] else 0 {
      AtOrderCount(fields, o, f);
    }
    forall f | f in vals ensures f.order < o {
      MembersByCount(vals, f);
    }
    forall f | f in bucket ensures f.order == o {
      MembersByCount(bucket, f);
    }
    SortedWithBucket(vals, bucket, o);
  }

  lemma NothingAtSeen(vals: seq<Field>, fields: seq<Field>, seen: seq<int>, o: int)
    requires PutOut(vals, fields, seen) && (AtOrder(fields, o) == [] || o in seen)
    ensures PutOut(vals, fields, seen + [o])
  {
    forall f ensures multiset(vals)[f] == if f.order in seen + [o] then multiset(fields)[f] else 0 {
      AtOrderCount(fields, o, f);
    }
  }

  lemma BucketsLeftAfter(buckets: map<int, seq<Field>>, fields: seq<Field>, seen: seq<int>, o: int)
    requires BucketsLeft(buckets, fields, seen)
    ensures o in buckets ==> o !in seen && buckets[o] == AtOrder(fields, o)
    ensures o !in buckets ==> AtOrder(fields, o) == [] || o in seen
    ensures BucketsLeft(buckets - {o}, fields, seen + [o])
  {
    forall p: int ensures p in seen + [o] <==> p in seen || p == o {}
  }

  /** The loop over the sorted orders, which deletes each bucket it puts out. */
  method PutOutBuckets(all: map<int, seq<Field>>, orders: seq<int>, ghost fields: seq<Field>) returns (vals: seq<Field>)
    requires Buckets(all, fields) && Sorted(IntLeq, orders)
    ensures PutOut(vals, fields, orders)
  {
    var buckets := all;
    vals := [];
    for i := 0 to |orders|
      invariant PutOut(vals, fields, orders[..i]) && BucketsLeft(buckets, fields, orders[..i])
    {
      var o := orders[i];
      assert orders[..i + 1] == orders[..i] + [o];
      BucketsLeftAfter(buckets, fields, orders[..i], o);
      if o in buckets {
        var bucket := SortDescriptors(buckets[o]);
        PutOutBucket(vals, fields, orders[..i], o, bucket);
        vals := vals + bucket;
        buckets := buckets - {o};
      } else {
        NothingAtSeen(vals, fields, orders[..i], o);
        assert buckets == buckets - {o};
      }
    }
    assert orders[..|orders|] == orders;
  }

  /** `out` lists the descriptors of exactly these fields, by order and then path. */
  ghost predicate IsListing(out: seq<Descriptor>, fields: multiset<Field>) {
    exists vals: seq<Field> :: multiset(vals) == fields && Sorted(FieldLeq, vals) && out == DescriptorsOf(vals)
  }

  lemma AllPutOut(vals: seq<Field>, fields: seq<Field>, orders: seq<int>)
    requires PutOut(vals, fields, orders) && multiset(orders) == multiset(Orders(fields))
    ensures multiset(vals) == multiset(fields)
  {
    forall f ensures multiset(vals)[f] == multiset(fields)[f] {
      if f in fields {
        var i :| 0 <= i < |fields| && fields[i] == f;
        assert Orders(fields)[i] == f.order;
        assert f.order in multiset(orders);
      } else {
        MembersByCount(fields, f);
      }
    }
  }

  /** Walks the types and puts the fields of each into buckets. */
  method CollectFields(marked: map<string, seq<Field>>, order: seq<string>) returns (b: Bucketing)
    requires forall t :: t in order ==> t in marked
    ensures b.Valid() && fresh(b) && b.fields == Included(Flatten(marked, order))
  {
    b := new Bucketing();
    ghost var rest := order;
    for i := 0 to |order|
      invariant b.Valid() && fresh(b) && rest == order[i..]
      invariant b.fields + Included(Flatten(marked, rest)) == Included(Flatten(marked, order))
    {
      IncludedOfSum(marked[order[i]], Flatten(marked, rest[1..]));
      Assoc(b.fields, Included(marked[order[i]]), Included(Flatten(marked, rest[1..])));
      b.AddFields(marked[order[i]]);
      rest := rest[1..];
    }
    assert b.fields + [] == b.fields;
  }

  method ListDescriptors(vals: seq<Field>) returns (descriptors: seq<Descriptor>)
    ensures descriptors == DescriptorsOf(vals)
  {
    descriptors := [];
    for i := 0 to |vals|
      invariant |descriptors| == i && forall j :: 0 <= j < i ==> descriptors[j] == vals[j].descriptor
    {
      descriptors := descriptors + [vals[i].descriptor];
    }
  }

  /** What walking the map in some order gives. */
  ghost predicate Lists(marked: map<string, seq<Field>>, out: seq<Descriptor>) {
    exists order :: IsOrder(order, marked.Keys) && ListsInOrder(marked, order, out)
  }

  ghost predicate ListsInOrder(marked: map<string, seq<Field>>, order: seq<string>, out: seq<Descriptor>)
    requires IsOrder(order, marked.Keys)
  {
    IsListing(out, multiset(Included(Flatten(marked, order))))
  }

  method GetTypedDescriptors(marked: map<string, seq<Field>>) returns (descriptors: seq<Descriptor>)
    ensures Lists(marked, descriptors)
  {
    var order := RangeOver(marked);
    var b := CollectFields(marked, order);
    var orders := SortInts(b.orders);
    var vals := PutOutBuckets(b.buckets, orders, b.fields);
    AllPutOut(vals, b.fields, orders);
    descriptors := ListDescriptors(vals);
    assert ListsInOrder(marked, order, descriptors);
  }

  // ---- whatever the iteration order ----

  lemma {:induction false} FlattenCount(marked: map<string, seq<Field>>, order: seq<string>, k: nat)
    requires k < |order| && forall t :: t in order ==> t in marked
    ensures multiset(Flatten(marked, order))
            == multiset(marked[order[k]]) + multiset(Flatten(marked, order[..k] + order[k + 1..]))
  {
    if k == 0 {
      assert order[..k] + order[k + 1..] == order[1..];
    } else {
      FlattenCount(marked, order[1..], k - 1);
      assert (order[..k] + order[k + 1..])[0] == order[0];
      assert (order[..k] + order[k + 1..])[1..] == order[1..][..k - 1] + order[1..][k..];
    }
  }

  /** Every iteration order meets the same fields. */
  lemma {:induction false} FlattenPermutes(marked: map<string, seq<Field>>, a: seq<string>, b: seq<string>)
    requires NoDuplicates(a) && NoDuplicates(b) && (forall t :: t in a <==> t in b)
    requires forall t :: t in a ==> t in marked
    ensures multiset(Flatten(marked, a)) == multiset(Flatten(marked, b))
    decreases a
  {
    if a == [] {
      assert forall t :: t in b ==> t in a;
      assert Elements(b) == {} && (forall k :: 0 <= k < |b| ==> b[k] in Elements(b));
    } else {
      assert a[0] in b;
      var k :| 0 <= k < |b| && b[k] == a[0];
      var b' := b[..k] + b[k + 1..];
      FlattenCount(marked, b, k);
      WithoutOne(a, b, k);
      FlattenPermutes(marked, a[1..], b');
    }
  }

  lemma WithoutOne(a: seq<string>, b: seq<string>, k: nat)
    requires NoDuplicates(a) && NoDuplicates(b) && (forall t :: t in a <==> t in b) && a != [] && k < |b|
             && b[k] == a[0]
    ensures NoDuplicates(a[1..]) && NoDuplicates(b[..k] + b[k + 1..])
    ensures forall t :: t in a[1..] <==> t in b[..k] + b[k + 1..]
  {
    assert a == [a[0]] + a[1..] && b == b[..k] + [b[k]] + b[k + 1..];
    forall t ensures t in a[1..] <==> t in a && t != a[0] {
      if t in a[1..] { var i :| 0 <= i < |a[1..]| && a[1..][i] == t; assert a[0] != a[i + 1]; }
    }
    var b' := b[..k] + b[k + 1..];
    forall t ensures t in b' <==> t in b && t != b[k] {
      if t in b[..k] { var i :| 0 <= i < k && b[i] == t; assert b[i] != b[k]; }
      if t in b[k + 1..] { var i :| 0 <= i < |b[k + 1..]| && b[k + 1..][i] == t; assert b[k] != b[k + 1 + i]; }
    }
  }

  lemma {:induction false} IncludedPermutes(a: seq<Field>, f: Field)
    ensures multiset(Included(a))[f] == if f.included then multiset(a)[f] else 0
  {
    if a != [] {
      assert a == [a[0]] + a[1..];
      IncludedPermutes(a[1..], f);
    }
  }

  lemma {:induction false} SameIncluded(marked: map<string, seq<Field>>, a: seq<string>, b: seq<string>)
    requires IsOrder(a, marked.Keys) && IsOrder(b, marked.Keys)
    ensures multiset(Included(Flatten(marked, a))) == multiset(Included(Flatten(marked, b)))
  {
    FlattenPermutes(marked, a, b);
    var fs, gs := Flatten(marked, a), Flatten(marked, b);
    forall f ensures multiset(Included(fs))[f] == multiset(Included(gs))[f] {
      IncludedPermutes(fs, f);
      IncludedPermutes(gs, f);
    }
  }

  lemma ListingIsUnique(fields: seq<Field>, out1: seq<Descriptor>, out2: seq<Descriptor>)
    requires NoTies(FieldLeq, fields) && IsListing(out1, multiset(fields)) && IsListing(out2, multiset(fields))
    ensures out1 == out2
  {
    var v1: seq<Field> :| multiset(v1) == multiset(fields) && Sorted(FieldLeq, v1) && out1 == DescriptorsOf(v1);
    var v2: seq<Field> :| multiset(v2) == multiset(fields) && Sorted(FieldLeq, v2) && out2 == DescriptorsOf(v2);
    FieldLeqIsPreorder();
    forall x | x in v1 ensures x in fields {
      assert x in multiset(v1);
    }
    SortedIsUnique(FieldLeq, v1, v2);
  }

  /** Every result lists the included fields of every walk, and when no two of them share order
      and path the result does not depend on the walk. */
  lemma ListingIsDeterministic(marked: map<string, seq<Field>>, walk: seq<string>, out1: seq<Descriptor>,
                               out2: seq<Descriptor>)
    requires IsOrder(walk, marked.Keys) && Lists(marked, out1) && Lists(marked, out2)
    ensures IsListing(out1, multiset(Included(Flatten(marked, walk))))
    ensures NoTies(FieldLeq, Included(Flatten(marked, walk))) ==> out1 == out2
  {
    var a :| IsOrder(a, marked.Keys) && ListsInOrder(marked, a, out1);
    var b :| IsOrder(b, marked.Keys) && ListsInOrder(marked, b, out2);
    SameIncluded(marked, walk, a);
    SameIncluded(marked, walk, b);
    if NoTies(FieldLeq, Included(Flatten(marked, walk))) {
      ListingIsUnique(Included(Flatten(marked, walk)), out1, out2);
    }
  }

  /** What the order of a listing means: of two descriptors the field of the earlier one has the
      smaller order, or the same order and not the greater path. */
  lemma ListedInOrder(out: seq<Descriptor>, fields: multiset<Field>) returns (vals: seq<Field>)
    requires IsListing(out, fields)
    ensures multiset(vals) == fields && |out| == |vals|
    ensures forall i :: 0 <= i < |out| ==> out[i] == vals[i].descriptor
    ensures forall i, j :: 0 <= i < j < |vals| ==>
              vals[i].order < vals[j].order
              || (vals[i].order == vals[j].order && StrLeq(vals[i].descriptor.path, vals[j].descriptor.path))
  {
    vals :| multiset(vals) == fields && Sorted(FieldLeq, vals) && out == DescriptorsOf(vals);
    forall i, j | 0 <= i < j < |vals| ensures FieldLeq(vals[i], vals[j]) {}
  }

  /** The fields of a walk, the included ones of every type. */
  lemma {:induction false} FlattenMember(marked: map<string, seq<Field>>, order: seq<string>, f: Field)
    requires forall t :: t in order ==> t in marked
    ensures f in Flatten(marked, order) <==> exists t :: t in order && f in marked[t]
    ensures f in Included(Flatten(marked, order)) <==> f.included && exists t :: t in order && f in marked[t]
  {
    if order != [] {
      assert order == [order[0]] + order[1..];
      FlattenMember(marked, order[1..], f);
    }
    IncludedPermutes(Flatten(marked, order), f);
    assert f in Included(Flatten(marked, order)) <==> multiset(Included(Flatten(marked, order)))[f] > 0;
    assert f in Flatten(marked, order) <==> multiset(Flatten(marked, order))[f] > 0;
  }
}
