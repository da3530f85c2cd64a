/** The edit distance by which two lists of scalars are compared, and the edits it leads to. */
module EditDistance {

  function Min(x: nat, y: nat): nat { if y < x then y else x }

  /** Edits needed to turn the first `i` elements of `s` into the first `j` of `t`. */
  function Distance<T(==)>(s: seq<T>, t: seq<T>, i: nat, j: nat): nat
    requires i <= |s| && j <= |t|
    decreases i + j
  {
    if i == 0 then j
    else if j == 0 then i
    else if s[i - 1] == t[j - 1] then Distance(s, t, i - 1, j - 1)
    else 1 + Min(Distance(s, t, i - 1, j - 1), Min(Distance(s, t, i, j - 1), Distance(s, t, i - 1, j)))
  }

  datatype Edit = Drop | Insert | Change | Keep

  /** The edit that walking back through the distances takes: a removal before an addition
      before a replacement. There always is one, and nothing is kept that is not equal. */
  function LastEdit<T(==)>(s: seq<T>, t: seq<T>, i: nat, j: nat): (e: Edit)
    requires i <= |s| && j <= |t| && i + j > 0
    ensures e.Drop? ==> i > 0
    ensures e.Insert? ==> j > 0
    ensures e.Change? || e.Keep? ==> i > 0 && j > 0
    ensures e.Keep? ==> s[i - 1] == t[j - 1] && Distance(s, t, i - 1, j - 1) == Distance(s, t, i, j)
  {
    var d := Distance(s, t, i, j);
    if i > 0 && Distance(s, t, i - 1, j) + 1 == d then Drop
    else if j > 0 && Distance(s, t, i, j - 1) + 1 == d then Insert
    else if i > 0 && j > 0 && Distance(s, t, i - 1, j - 1) + 1 == d then Change
    else Keep
  }

  /** What the edits make of the first `i` elements when nothing is removed. */
  function Edited<T(==)>(s: seq<T>, t: seq<T>, i: nat, j: nat): seq<T>
    requires i <= |s| && j <= |t|
    decreases i + j
  {
    if i + j == 0 then []
    else match LastEdit(s, t, i, j)
      case Drop => Edited(s, t, i - 1, j) + [s[i - 1]]
      case Insert => Edited(s, t, i, j - 1) + [t[j - 1]]
      case _ => Edited(s, t, i - 1, j - 1) + [t[j - 1]]
  }

  /** Only removals are needed. */
  predicate OnlyDrops<T(==)>(s: seq<T>, t: seq<T>, i: nat, j: nat)
    requires i <= |s| && j <= |t|
    decreases i + j
  {
    i + j == 0
    || match LastEdit(s, t, i, j)
       case Drop => OnlyDrops(s, t, i - 1, j)
       case Keep => OnlyDrops(s, t, i - 1, j - 1)
       case _ => false
  }

  // ---- subsequences ----

  /** `t` can be read off `r` from left to right, skipping elements. */
  predicate Subsequence<T(==)>(t: seq<T>, r: seq<T>)
    decreases |r|
  {
    t == []
    || (r != []
        && if t[|t| - 1] == r[|r| - 1] then Subsequence(t[..|t| - 1], r[..|r| - 1]) else Subsequence(t, r[..|r| - 1]))
  }

  lemma {:induction false} SubsequenceGrows<T>(t: seq<T>, r: seq<T>, x: T)
    requires Subsequence(t, r)
    ensures Subsequence(t, r + [x])
    decreases |r|, 1
  {
    InitOfSnoc(r, x);
    if t != [] && t[|t| - 1] == x {
      SubsequenceShrinks(t, r);
    }
  }

  lemma {:induction false} SubsequenceShrinks<T>(t: seq<T>, r: seq<T>)
    requires Subsequence(t, r) && t != []
    ensures Subsequence(t[..|t| - 1], r)
    decreases |r|, 0
  {
    var t', r' := t[..|t| - 1], r[..|r| - 1];
    if t[|t| - 1] != r[|r| - 1] {
      SubsequenceShrinks(t, r');
    }
    SubsequenceGrows(t', r', r[|r| - 1]);
    assert r == r' + [r[|r| - 1]];
  }

  lemma {:induction false} SubsequenceSnoc<T>(t: seq<T>, r: seq<T>, x: T)
    requires Subsequence(t, r)
    ensures Subsequence(t + [x], r + [x])
  {
    InitOfSnoc(t, x);
    InitOfSnoc(r, x);
  }

  lemma {:induction false} InitOfSnoc<T>(s: seq<T>, x: T)
    ensures |s + [x]| == |s| + 1 && (s + [x])[|s|] == x && (s + [x])[..|s|] == s
  {
  }

  lemma {:induction false} PrefixIsSubsequence<T>(t: seq<T>, r: seq<T>)
    requires t <= r
    ensures Subsequence(t, r)
    decreases |r|
  {
    if t != [] && |t| == |r| {
      assert t == r;
      PrefixIsSubsequence(t[..|t| - 1], r[..|r| - 1]);
    } else if t != [] {
      PrefixIsSubsequence(t, r[..|r| - 1]);
      SubsequenceGrows(t, r[..|r| - 1], r[|r| - 1]);
      assert r == r[..|r| - 1] + [r[|r| - 1]];
    }
  }

  // ---- what the edits achieve ----

  /** The edited list contains the target in order. */
  lemma {:induction false} EditedContains<T>(s: seq<T>, t: seq<T>, i: nat, j: nat)
    requires i <= |s| && j <= |t|
    ensures Subsequence(t[..j], Edited(s, t, i, j))
    decreases i + j
  {
    if i + j > 0 {
      match LastEdit(s, t, i, j)
      case Drop =>
        EditedContains(s, t, i - 1, j);
        SubsequenceGrows(t[..j], Edited(s, t, i - 1, j), s[i - 1]);
      case Insert =>
        EditedContains(s, t, i, j - 1);
        SubsequenceSnoc(t[..j - 1], Edited(s, t, i, j - 1), t[j - 1]);
        LastOfPrefix(t, j);
      case _ =>
        EditedContains(s, t, i - 1, j - 1);
        SubsequenceSnoc(t[..j - 1], Edited(s, t, i - 1, j - 1), t[j - 1]);
        LastOfPrefix(t, j);
    }
  }

  /** `r` is made of `s` and `t` in order: each of its elements comes from `s`, or from `t`, or
      from `t` in the place of one of `s`; and nothing of either is left out. */
  predicate Woven<T(==)>(r: seq<T>, s: seq<T>, t: seq<T>)
    decreases |r|
  {
    if r == [] then s == [] && t == []
    else
      var x, r' := r[|r| - 1], r[..|r| - 1];
      || (s != [] && s[|s| - 1] == x && Woven(r', s[..|s| - 1], t))
      || (t != [] && t[|t| - 1] == x && Woven(r', s, t[..|t| - 1]))
      || (s != [] && t != [] && t[|t| - 1] == x && Woven(r', s[..|s| - 1], t[..|t| - 1]))
  }

  lemma {:induction false} WovenSnoc<T>(r: seq<T>, s: seq<T>, t: seq<T>, x: T, y: T)
    requires Woven(r, s, t)
    ensures Woven(r + [x], s + [x], t) && Woven(r + [y], s, t + [y]) && Woven(r + [y], s + [x], t + [y])
  {
    InitOfSnoc(r, x);
    InitOfSnoc(r, y);
    InitOfSnoc(s, x);
    InitOfSnoc(t, y);
  }

  lemma {:induction false} LastOfPrefix<T>(s: seq<T>, i: nat)
    requires 0 < i <= |s|
    ensures s[..i] == s[..i - 1] + [s[i - 1]] && s[..i][..i - 1] == s[..i - 1]
  {
  }

  /** No element is dropped except where one of the target takes its place. */
  lemma {:induction false} EditedIsWoven<T>(s: seq<T>, t: seq<T>, i: nat, j: nat)
    requires i <= |s| && j <= |t|
    ensures Woven(Edited(s, t, i, j), s[..i], t[..j])
    decreases i + j
  {
    if i > 0 { LastOfPrefix(s, i); }
    if j > 0 { LastOfPrefix(t, j); }
    if i + j > 0 {
      match LastEdit(s, t, i, j)
      case Drop =>
        EditedIsWoven(s, t, i - 1, j);
        WovenSnoc(Edited(s, t, i - 1, j), s[..i - 1], t[..j], s[i - 1], s[i - 1]);
      case Insert =>
        EditedIsWoven(s, t, i, j - 1);
        WovenSnoc(Edited(s, t, i, j - 1), s[..i], t[..j - 1], t[j - 1], t[j - 1]);
      case _ =>
        EditedIsWoven(s, t, i - 1, j - 1);
        WovenSnoc(Edited(s, t, i - 1, j - 1), s[..i - 1], t[..j - 1], s[i - 1], t[j - 1]);
    }
  }

  lemma {:induction false} DistanceAtLeast<T>(s: seq<T>, t: seq<T>, i: nat, j: nat)
    requires i <= |s| && j <= |t|
    ensures Distance(s, t, i, j) >= i - j
    decreases i + j
  {
    if i > 0 && j > 0 {
      DistanceAtLeast(s, t, i - 1, j - 1);
      DistanceAtLeast(s, t, i, j - 1);
      DistanceAtLeast(s, t, i - 1, j);
    }
  }

  lemma {:induction false} SubsequenceOfPrefixes<T>(s: seq<T>, t: seq<T>, i: nat, j: nat)
    requires 0 < i <= |s| && 0 < j <= |t|
    ensures Subsequence(t[..j], s[..i])
       <==> if t[j - 1] == s[i - 1] then Subsequence(t[..j - 1], s[..i - 1]) else Subsequence(t[..j], s[..i - 1])
  {
    LastOfPrefix(s, i);
    LastOfPrefix(t, j);
  }

  lemma {:induction false} DistanceStep<T>(s: seq<T>, t: seq<T>, i: nat, j: nat)
    requires 0 < i <= |s| && 0 < j <= |t|
    ensures Distance(s, t, i, j) == i - j
       <==> if t[j - 1] == s[i - 1] then Distance(s, t, i - 1, j - 1) == i - j
         else Distance(s, t, i - 1, j) == i - 1 - j
  {
    DistanceAtLeast(s, t, i - 1, j - 1);
    DistanceAtLeast(s, t, i, j - 1);
    DistanceAtLeast(s, t, i - 1, j);
  }

  lemma {:induction false} DistanceAtEdge<T>(s: seq<T>, t: seq<T>, i: nat, j: nat)
    requires i <= |s| && j <= |t| && (i == 0 || j == 0)
    ensures Distance(s, t, i, j) == i - j <==> Subsequence(t[..j], s[..i])
  {
  }

  /** The distance is the difference in length exactly for subsequences. */
  lemma {:induction false} DistanceToSubsequence<T>(s: seq<T>, t: seq<T>, i: nat, j: nat)
    requires i <= |s| && j <= |t|
    ensures Distance(s, t, i, j) == i - j <==> Subsequence(t[..j], s[..i])
    decreases i + j
  {
    if i == 0 || j == 0 {
      DistanceAtEdge(s, t, i, j);
    } else {
      SubsequenceOfPrefixes(s, t, i, j);
      DistanceStep(s, t, i, j);
      if s[i - 1] == t[j - 1] {
        DistanceToSubsequence(s, t, i - 1, j - 1);
      } else {
        DistanceToSubsequence(s, t, i - 1, j);
      }
    }
  }

  /** Removals suffice exactly when the target is a subsequence. */
  lemma {:induction false} OnlyDropsIff<T>(s: seq<T>, t: seq<T>, i: nat, j: nat)
    requires i <= |s| && j <= |t|
    ensures OnlyDrops(s, t, i, j) <==> Subsequence(t[..j], s[..i])
    decreases i + j
  {
    DistanceToSubsequence(s, t, i, j);
    if i + j > 0 {
      DistancesAround(s, t, i, j);
      match LastEdit(s, t, i, j)
      case Drop => OnlyDropsIff(s, t, i - 1, j); DistanceToSubsequence(s, t, i - 1, j);
      case Keep => OnlyDropsIff(s, t, i - 1, j - 1); DistanceToSubsequence(s, t, i - 1, j - 1);
      case _ =>
    }
  }

  lemma {:induction false} DistancesAround<T>(s: seq<T>, t: seq<T>, i: nat, j: nat)
    requires i <= |s| && j <= |t|
    ensures j > 0 ==> Distance(s, t, i, j - 1) >= i - j + 1
    ensures i > 0 && j > 0 ==> Distance(s, t, i - 1, j - 1) >= i - j
  {
    if j > 0 { DistanceAtLeast(s, t, i, j - 1); }
    if i > 0 && j > 0 { DistanceAtLeast(s, t, i - 1, j - 1); }
  }

  // ---- which edits are preferred ----

  /** The distances that decide the two examples below. */
  lemma {:induction false} SmallDistances<T>(s: seq<T>, t: seq<T>)
    ensures forall j :: 0 <= j <= |t| ==> Distance(s, t, 0, j) == j
    ensures forall i :: 0 <= i <= |s| ==> Distance(s, t, i, 0) == i
  {
  }

  /** An addition is preferred to a replacement: the list x, y that is to be y, z becomes x, y, z. */
  lemma {:induction false} AdditionBeforeReplacement<T>(x: T, y: T, z: T)
    requires x != y && y != z && x != z
    ensures Edited([x, y], [y, z], 2, 2) == [x, y, z]
  {
    var s, t := [x, y], [y, z];
    SmallDistances(s, t);
    assert s[0] == x && s[1] == y && t[0] == y && t[1] == z;
    assert Distance(s, t, 1, 1) == 1 && Distance(s, t, 1, 2) == 2 && Distance(s, t, 2, 1) == 1
           && Distance(s, t, 2, 2) == 2;
    assert LastEdit(s, t, 2, 2) == Insert && LastEdit(s, t, 2, 1) == Keep && LastEdit(s, t, 1, 0) == Drop;
    assert Edited(s, t, 0, 0) == [] && Edited(s, t, 1, 0) == [] + [x];
    assert Edited(s, t, 2, 1) == [x] + [y];
    assert Edited(s, t, 2, 2) == [x, y] + [z];
  }

  /** A removal is preferred to an addition: the list x, y, x that is to be y, x, y becomes
      y, x, y, x. */
  lemma {:induction false} RemovalBeforeAddition<T>(x: T, y: T)
    requires x != y
    ensures Edited([x, y, x], [y, x, y], 3, 3) == [y, x, y, x]
  {
    var s, t := [x, y, x], [y, x, y];
    SmallDistances(s, t);
    assert s[0] == x && s[1] == y && s[2] == x && t[0] == y && t[1] == x && t[2] == y;
    assert Distance(s, t, 1, 1) == 1 && Distance(s, t, 1, 2) == 1 && Distance(s, t, 2, 1) == 1;
    assert Distance(s, t, 1, 3) == 2 && Distance(s, t, 2, 2) == 2 && Distance(s, t, 3, 1) == 2;
    assert Distance(s, t, 2, 3) == 1 && Distance(s, t, 3, 2) == 1 && Distance(s, t, 3, 3) == 2;
    assert LastEdit(s, t, 3, 3) == Drop && LastEdit(s, t, 2, 3) == Keep && LastEdit(s, t, 1, 2) == Keep;
    assert LastEdit(s, t, 0, 1) == Insert;
    assert Edited(s, t, 0, 0) == [] && Edited(s, t, 0, 1) == [] + [y];
    assert Edited(s, t, 1, 2) == [y] + [x] && Edited(s, t, 2, 3) == [y, x] + [y];
    assert Edited(s, t, 3, 3) == [y, x, y] + [x];
  }
}
