/** Small facts about sequences, and the iteration of Go maps. */
module Seqs {

  lemma Assoc<T>(a: seq<T>, b: seq<T>, c: seq<T>)
    ensures a + (b + c) == (a + b) + c
    ensures a + ([] + c) == a + c
  {
  }

  lemma HeadOf<T>(a: seq<T>, s: seq<T>)
    requires s != []
    ensures a + s == (a + [s[0]]) + s[1..]
    ensures (a + s)[|a|] == s[0]
    ensures (a + s)[..|a|] + (a + s)[|a| + 1..] == a + s[1..]
  {
  }

  lemma HeadOfSum<T>(a: seq<T>, b: seq<T>)
    requires a != []
    ensures a + b != [] && (a + b)[0] == a[0] && (a + b)[1..] == a[1..] + b
  {
  }

  lemma MiddleOf<T>(a: seq<T>, s: seq<T>, k: nat)
    requires k < |s|
    ensures a + s[k..] == (a + [s[k]]) + s[k + 1..]
    ensures (a + s[k..])[|a|] == s[k]
    ensures (a + s[k..])[..|a|] + (a + s[k..])[|a| + 1..] == a + s[k + 1..]
  {
  }

  lemma UpdateHead<T>(a: seq<T>, s: seq<T>, x: T)
    requires s != []
    ensures (a + s)[|a| := x] == a + ([x] + s[1..])
  {
  }

  function Elements<T>(s: seq<T>): set<T> { set x | x in s }

  ghost predicate NoDuplicates<T>(s: seq<T>) {
    forall i, j :: 0 <= i < j < |s| ==> s[i] != s[j]
  }

  lemma {:induction false} CountWithoutDuplicates<T>(s: seq<T>, x: T)
    requires NoDuplicates(s)
    ensures multiset(s)[x] == if x in s then 1 else 0
  {
    if s != [] {
      assert s == [s[0]] + s[1..];
      CountWithoutDuplicates(s[1..], x);
    }
  }

  /** A possible iteration order over a map with these keys. */
  ghost predicate IsOrder<K(!new)>(order: seq<K>, keys: set<K>) {
    NoDuplicates(order) && forall k :: k in order <==> k in keys
  }

  /** Go's `range` over a map: every key once, in no particular order. */
  method RangeOver<K(!new), V>(m: map<K, V>) returns (order: seq<K>)
    ensures IsOrder(order, m.Keys)
  {
    order := [];
    var left := m.Keys;
    while left != {}
      invariant left <= m.Keys && IsOrder(order, m.Keys - left)
      decreases left
    {
      var k :| k in left;
      order := order + [k];
      left := left - {k};
    }
  }

  lemma TailWithoutDuplicates<T>(x: T, s: seq<T>)
    requires NoDuplicates([x] + s)
    ensures x !in s && NoDuplicates(s)
  {
    var t := [x] + s;
    forall i | 0 <= i < |s| ensures s[i] != x { assert t[0] != t[i + 1]; }
    forall i, j | 0 <= i < j < |s| ensures s[i] != s[j] { assert t[i + 1] != t[j + 1]; }
  }

  lemma ConsWithoutDuplicates<T>(x: T, s: seq<T>)
    requires x !in s && NoDuplicates(s)
    ensures NoDuplicates([x] + s)
  {
    var t := [x] + s;
    forall i, j | 0 <= i < j < |t| ensures t[i] != t[j] {
      assert t[j] == s[j - 1];
    }
  }

  lemma ConsDuplicates<T>(x: T, s: seq<T>)
    ensures NoDuplicates([x] + s) <==> x !in s && NoDuplicates(s)
    ensures [] + s == s
  {
    if NoDuplicates([x] + s) {
      TailWithoutDuplicates(x, s);
    } else if x !in s && NoDuplicates(s) {
      ConsWithoutDuplicates(x, s);
    }
  }

  lemma ElementsOfCons<T>(x: T, s: seq<T>)
    ensures Elements([x] + s) == Elements(s) + {x}
    ensures |Elements([x] + s)| == |Elements(s)| + if x in s then 0 else 1
  {
    assert Elements([x] + s) == Elements(s) + {x};
    if x in s {
      assert Elements(s) + {x} == Elements(s);
    }
  }

  lemma MembersOfInit<T>(s: seq<T>)
    requires s != []
    ensures forall x :: x in s <==> x in s[..|s| - 1] || x == s[|s| - 1]
  {
    assert s == s[..|s| - 1] + [s[|s| - 1]];
  }

  lemma HeadOfDistinct<T>(s: seq<T>)
    requires s != [] && NoDuplicates(s)
    ensures NoDuplicates(s[1..]) && s[0] !in s[1..] && Elements(s) == Elements(s[1..]) + {s[0]}
  {
    assert s == [s[0]] + s[1..];
    ConsDuplicates(s[0], s[1..]);
    ElementsOfCons(s[0], s[1..]);
  }

  /** A sequence has as many elements as positions exactly when it has no duplicates. */
  lemma {:induction false} ElementCount<T>(s: seq<T>)
    ensures |Elements(s)| <= |s|
    ensures |Elements(s)| == |s| <==> NoDuplicates(s)
  {
    if s != [] {
      ElementCount(s[1..]);
      ConsDuplicates(s[0], s[1..]);
      ElementsOfCons(s[0], s[1..]);
      assert s == [s[0]] + s[1..];
    }
  }

  lemma SubsetOfSameSize<T>(a: set<T>, b: set<T>)
    requires a <= b && |a| >= |b|
    ensures a == b
  {
    if x :| x in b && x !in a {
      assert a <= b - {x};
      SubsetIsSmaller(a, b - {x});
    }
  }

  lemma {:induction false} SubsetIsSmaller<T>(a: set<T>, b: set<T>)
    requires a <= b
    ensures |a| <= |b|
  {
    if a != {} {
      var x :| x in a;
      SubsetIsSmaller(a - {x}, b - {x});
    }
  }
}
