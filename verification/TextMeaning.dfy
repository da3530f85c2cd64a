/** What the text functions do, character by character. */
module TextMeaning {
  import opened Sorting
  import opened Text

  // ---- white space ----

  /** The code points of white space. */
  const WHITE: set<int> :=
    {0x09, 0x0A, 0x0B, 0x0C, 0x0D, 0x20, 0x85, 0xA0, 0x1680,
     0x2000, 0x2001, 0x2002, 0x2003, 0x2004, 0x2005, 0x2006, 0x2007, 0x2008, 0x2009, 0x200A,
     0x2028, 0x2029, 0x202F, 0x205F, 0x3000}

  predicate White(c: char) { c as int in WHITE }

  lemma WhiteIff(c: char)
    ensures IsSpace(c) <==> White(c)
  {
  }

  predicate AllSpace(s: string) { forall i :: 0 <= i < |s| ==> IsSpace(s[i]) }

  lemma {:induction false} TrimLeftDrops(s: string)
    ensures |TrimLeft(s)| <= |s| && TrimLeft(s) == s[|s| - |TrimLeft(s)|..] && AllSpace(s[..|s| - |TrimLeft(s)|])
    ensures TrimLeft(s) == "" || !IsSpace(TrimLeft(s)[0])
  {
    if s != "" && IsSpace(s[0]) {
      TrimLeftDrops(s[1..]);
      var n := |s| - |TrimLeft(s)|;
      assert s[..n] == [s[0]] + s[1..][..n - 1];
    }
  }

  lemma {:induction false} TrimRightDrops(s: string)
    ensures TrimRight(s) <= s && AllSpace(s[|TrimRight(s)|..])
    ensures TrimRight(s) == "" || !IsSpace(TrimRight(s)[|TrimRight(s)| - 1])
  {
    if s != "" && IsSpace(s[|s| - 1]) {
      TrimRightDrops(s[..|s| - 1]);
      var n := |TrimRight(s)|;
      assert s[n..] == s[..|s| - 1][n..] + [s[|s| - 1]];
    }
  }

  /** Trimming takes away white space at both ends and nothing else. */
  lemma {:induction false} TrimSpaceDrops(s: string) returns (before: string, after: string)
    ensures s == before + TrimSpace(s) + after && AllSpace(before) && AllSpace(after)
    ensures TrimSpace(s) == "" || (!IsSpace(TrimSpace(s)[0]) && !IsSpace(TrimSpace(s)[|TrimSpace(s)| - 1]))
  {
    var left := TrimLeft(s);
    TrimLeftDrops(s);
    TrimRightDrops(left);
    before, after := s[..|s| - |left|], left[|TrimSpace(s)|..];
    assert s == before + left && left == TrimSpace(s) + after;
  }

  // ---- letters ----

  const UPPER := "ABCDEFGHIJKLMNOPQRSTUVWXYZ"
  const LOWER := "abcdefghijklmnopqrstuvwxyz"

  lemma LowerOfUpper(i: nat)
    requires i < 26
    ensures LowerChar(UPPER[i]) == LOWER[i] && 'A' as int + i == UPPER[i] as int
  {
  }

  /** Lower-casing replaces the letters from A to Z by those from a to z and nothing else. */
  lemma {:induction false} ToLowerAt(s: string, k: nat)
    requires k < |s|
    ensures |ToLower(s)| == |s|
    ensures forall i :: 0 <= i < 26 && s[k] == UPPER[i] ==> ToLower(s)[k] == LOWER[i]
    ensures s[k] !in UPPER ==> ToLower(s)[k] == s[k]
  {
    forall i | 0 <= i < 26 ensures LowerChar(UPPER[i]) == LOWER[i] { LowerOfUpper(i); }
    if 'A' <= s[k] <= 'Z' {
      LowerOfUpper(s[k] as int - 'A' as int);
      assert UPPER[s[k] as int - 'A' as int] == s[k];
    }
  }

  // ---- labels ----

  const LABEL_CHARS := "abcdefghijklmnopqrstuvwxyz0123456789-"

  lemma LabelCharIff(c: char)
    ensures LabelChar(c) <==> c in LABEL_CHARS
  {
    if 'a' <= c <= 'z' { assert LABEL_CHARS[c as int - 'a' as int] == c; }
    if '0' <= c <= '9' { assert LABEL_CHARS[26 + c as int - '0' as int] == c; }
    if c == '-' { assert LABEL_CHARS[36] == c; }
    if c in LABEL_CHARS {
      var i :| 0 <= i < |LABEL_CHARS| && LABEL_CHARS[i] == c;
      LabelCharAt(i);
    }
  }

  lemma LabelCharAt(i: nat)
    requires i < 37
    ensures LabelChar(LABEL_CHARS[i])
  {
  }

  /** A DNS label has at most 63 of these characters, at least one, and no dash at either end. */
  lemma LabelIff(s: string)
    ensures IsDNS1123Label(s)
       <==> && s != "" && |s| <= 63 && s[0] != '-' && s[|s| - 1] != '-'
            && forall i :: 0 <= i < |s| ==> s[i] in LABEL_CHARS
  {
    forall i | 0 <= i < |s| ensures LabelChar(s[i]) <==> s[i] in LABEL_CHARS { LabelCharIff(s[i]); }
  }

  // ---- order ----

  /** `a` is a prefix of `b`, or has the smaller character where they first differ. */
  ghost predicate Lexicographic(a: string, b: string) {
    a <= b || exists k: nat :: DifferAt(a, b, k)
  }

  predicate DifferAt(a: string, b: string, k: nat) { k < |a| && k < |b| && a[..k] == b[..k] && a[k] < b[k] }

  lemma {:induction false} DifferAtTail(a: string, b: string, k: nat)
    requires a != "" && b != "" && a[0] == b[0]
    ensures DifferAt(a, b, k + 1) <==> DifferAt(a[1..], b[1..], k)
  {
    if k < |a[1..]| && k < |b[1..]| {
      assert a[..k + 1] == [a[0]] + a[1..][..k] && b[..k + 1] == [b[0]] + b[1..][..k];
      assert a[..k + 1][1..] == a[1..][..k] && b[..k + 1][1..] == b[1..][..k];
    }
  }

  lemma DifferAtHead(a: string, b: string, k: nat)
    requires DifferAt(a, b, k) && k > 0
    ensures a[0] == b[0]
  {
    assert a[0] == a[..k][0] && b[0] == b[..k][0];
  }

  lemma {:induction false} LexicographicTail(a: string, b: string)
    requires a != "" && b != "" && a[0] == b[0]
    ensures Lexicographic(a, b) <==> Lexicographic(a[1..], b[1..])
  {
    assert a == [a[0]] + a[1..] && b == [b[0]] + b[1..];
    if k: nat :| DifferAt(a[1..], b[1..], k) {
      DifferAtTail(a, b, k);
      assert DifferAt(a, b, k + 1);
    }
    if k: nat :| DifferAt(a, b, k) {
      DifferAtTail(a, b, k - 1);
      assert DifferAt(a[1..], b[1..], k - 1);
    }
  }

  lemma {:induction false} StrLeqIff(a: string, b: string)
    ensures StrLeq(a, b) <==> Lexicographic(a, b)
  {
    if a != "" && b != "" {
      if a[0] == b[0] {
        StrLeqIff(a[1..], b[1..]);
        LexicographicTail(a, b);
      } else if a[0] < b[0] {
        assert DifferAt(a, b, 0);
      } else if k: nat :| DifferAt(a, b, k) {
        DifferAtHead(a, b, k);
      }
    }
  }
}
