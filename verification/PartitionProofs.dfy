/** Partitions lose nothing, read back as the documents they were made of, fit, and are as few
    as possible. */
module PartitionProofs {
  import opened Seqs
  import opened Text
  import YamlReader
  import opened ConfigMapPartition

  function Flatten(parts: seq<seq<string>>): seq<string> {
    if parts == [] then [] else parts[0] + Flatten(parts[1..])
  }

  // ---- nothing is lost ----

  lemma {:induction false} PackConserves(c: Codec, base: string, k: nat, cur: seq<string>, rest: seq<string>)
    ensures Flatten(Pack(c, base, k, cur, rest)) == cur + rest
    ensures cur + rest != [] ==> forall p :: p in Pack(c, base, k, cur, rest) ==> p != []
    decreases |rest|
  {
    if rest == [] {
      assert Flatten([cur]) == cur + rest;
    } else if cur != [] && Exceeds(c, base, k, cur + [rest[0]]) {
      var later := Pack(c, base, k + 1, [rest[0]], rest[1..]);
      PackConserves(c, base, k + 1, [rest[0]], rest[1..]);
      assert ([cur] + later)[1..] == later;
      assert [rest[0]] + rest[1..] == rest;
    } else {
      PackConserves(c, base, k, cur + [rest[0]], rest[1..]);
      assert (cur + [rest[0]]) + rest[1..] == cur + rest;
    }
  }

  /** The partitions hold exactly the trimmed non-empty documents in order, and none is empty
      when there is a document. */
  lemma PartitionConserves(c: Codec, base: string, defs: seq<string>)
    ensures Flatten(Partition(c, base, defs)) == Documents(defs)
    ensures Documents(defs) != [] ==> forall p :: p in Partition(c, base, defs) ==> p != []
    ensures Documents(defs) == [] ==> Partition(c, base, defs) == [[]]
    ensures forall d :: d in Documents(defs) ==> d != "" && Trimmed(d)
  {
    PackConserves(c, base, 1, [], Documents(defs));
    assert [] + Documents(defs) == Documents(defs);
    DocumentsTrimmed(defs);
  }

  lemma {:induction false} DocumentsTrimmed(defs: seq<string>)
    ensures forall d :: d in Documents(defs) ==> d != "" && Trimmed(d)
  {
    if defs != [] {
      DocumentsTrimmed(defs[1..]);
      TrimSpaceTrims(defs[0]);
    }
  }

  // ---- every partition of several documents fits ----

  lemma {:induction false} PackAdmissible(c: Codec, base: string, k: nat, cur: seq<string>, rest: seq<string>)
    requires |cur| >= 2 ==> !Exceeds(c, base, k, cur)
    ensures Admissible(c, base, k, Pack(c, base, k, cur, rest))
    decreases |rest|
  {
    if rest != [] {
      if cur != [] && Exceeds(c, base, k, cur + [rest[0]]) {
        var later := Pack(c, base, k + 1, [rest[0]], rest[1..]);
        PackAdmissible(c, base, k + 1, [rest[0]], rest[1..]);
        forall i | 0 <= i < |later| + 1 && |([cur] + later)[i]| >= 2
          ensures !Exceeds(c, base, k + i, ([cur] + later)[i])
        {
          if i > 0 {
            assert ([cur] + later)[i] == later[i - 1];
          }
        }
      } else {
        PackAdmissible(c, base, k, cur + [rest[0]], rest[1..]);
      }
    }
  }

  /** Every part of several documents passes the size test of its partition number; `k` is the
      number of the first part. */
  ghost predicate Admissible(c: Codec, base: string, k: nat, parts: seq<seq<string>>) {
    forall i :: 0 <= i < |parts| && |parts[i]| >= 2 ==> !Exceeds(c, base, k + i, parts[i])
  }

  /** Where a part starts in what it is a part of. */
  lemma {:induction false} FlattenAround(parts: seq<seq<string>>, i: nat) returns (n: nat)
    requires i < |parts|
    ensures n + |parts[i]| <= |Flatten(parts)| && parts[i] == Flatten(parts)[n..n + |parts[i]|]
  {
    n := 0;
    if i > 0 {
      n := FlattenAround(parts[1..], i - 1);
      n := |parts[0]| + n;
    }
  }

  /** What is stored of several consecutive documents is at most the suffix longer than what
      was measured of them. Closing a stream that has been flushed adds an empty block of 5
      bytes and the 8-byte trailer of section 2.3 of RFC 1952. */
  ghost predicate ShortSuffix(c: Codec, docs: seq<string>) {
    forall i, j :: 0 <= i && i + 2 <= j <= |docs| ==>
      |c.closed(Pieces(docs[i..j]))| <= c.flushedLength(Pieces(docs[i..j])) + GZIP_SUFFIX_LENGTH
  }

  /** The size test: the empty ConfigMap and what was measured of the documents, with a separator
      before each but the first, must leave room for the suffix within a mebibyte. */
  lemma SizeTest(c: Codec, base: string, k: nat, docs: seq<string>)
    ensures exists pieces: seq<string> ::
              && |pieces| == |docs|
              && (forall i :: 0 <= i < |docs| ==> pieces[i] == if i == 0 then docs[i] else "\n---\n" + docs[i])
              && (Exceeds(c, base, k, docs)
                  <==> c.emptySize(PartitionName(base, k)) + c.flushedLength(pieces) + 13 > 1048576)
  {
    var pieces := Pieces(docs);
    assert forall i :: 0 <= i < |docs| ==> pieces[i] == if i == 0 then docs[i] else "\n---\n" + docs[i];
  }

  /** The byte bound: a ConfigMap of several documents stays within a mebibyte. */
  lemma PartitionFits(c: Codec, base: string, defs: seq<string>, i: nat)
    requires ShortSuffix(c, Documents(defs))
    requires i < |Partition(c, base, defs)| && |Partition(c, base, defs)[i]| >= 2
    ensures c.emptySize(PartitionName(base, i + 1))
            + |c.closed(Pieces(Partition(c, base, defs)[i]))| <= 1048576
  {
    PackAdmissible(c, base, 1, [], Documents(defs));
    assert !Exceeds(c, base, 1 + i, Partition(c, base, defs)[i]);
    PartitionConserves(c, base, defs);
    var n := FlattenAround(Partition(c, base, defs), i);
  }

  // ---- there are as few partitions as possible ----

  /** Dropping some of several consecutive documents from either end never makes them too large. */
  ghost predicate Monotone(c: Codec, base: string, docs: seq<string>) {
    forall k, i, a, b, j :: 0 <= i <= a && a + 2 <= b <= j <= |docs| && !Exceeds(c, base, k, docs[i..j]) ==>
      !Exceeds(c, base, k, docs[a..b])
  }

  /** Greedy stays ahead: if another split still has the documents from `i` on to cover, it
      needs at least as many parts as greedy packing, which has come to `b` and started its
      current partition at `a`, at `i` or later. */
  lemma {:induction false} GreedyStaysAhead(c: Codec, base: string, k: nat, docs: seq<string>, i: nat, a: nat, b: nat,
                                            other: seq<seq<string>>)
    requires Monotone(c, base, docs) && i <= a < b <= |docs|
    requires Admissible(c, base, k, other) && Flatten(other) == docs[i..]
    ensures |Pack(c, base, k, docs[a..b], docs[b..])| <= |other|
    decreases |docs| - b
  {
    assert other != [];
    if b < |docs| {
      NextDocument(docs, a, b);
      if Exceeds(c, base, k, docs[a..b + 1]) {
        var q, tail := other[0], other[1..];
        FirstPart(docs, i, q, Flatten(tail));
        assert i + |q| <= b by {
          assert |q| >= 2 ==> !Exceeds(c, base, k, q);
        }
        TailAdmissible(c, base, k, other);
        GreedyStaysAhead(c, base, k + 1, docs, i + |q|, b, b + 1, tail);
      } else {
        GreedyStaysAhead(c, base, k, docs, i, a, b + 1, other);
      }
    }
  }

  lemma NextDocument(docs: seq<string>, a: nat, b: nat)
    requires a <= b < |docs|
    ensures docs[a..b] + [docs[b]] == docs[a..b + 1] && docs[b..][1..] == docs[b + 1..] && [docs[b]] == docs[b..b + 1]
  {
  }

  lemma FirstPart(docs: seq<string>, i: nat, q: seq<string>, tail: seq<string>)
    requires i <= |docs| && q + tail == docs[i..]
    ensures i + |q| <= |docs| && q == docs[i..i + |q|] && tail == docs[i + |q|..]
  {
    assert |q + tail| == |docs| - i;
    assert q == (q + tail)[..|q|] && tail == (q + tail)[|q|..];
  }

  lemma TailAdmissible(c: Codec, base: string, k: nat, parts: seq<seq<string>>)
    requires Admissible(c, base, k, parts) && parts != []
    ensures Admissible(c, base, k + 1, parts[1..])
  {
    forall i | 0 <= i < |parts[1..]| && |parts[1..][i]| >= 2 ensures !Exceeds(c, base, k + 1 + i, parts[1..][i]) {
      assert parts[1..][i] == parts[i + 1] && k + 1 + i == k + (i + 1);
    }
  }

  /** Optimality: no split of the documents into consecutive parts that pass the size test,
      single documents exempt, uses fewer ConfigMaps. */
  lemma {:induction false} PartitionOptimal(c: Codec, base: string, defs: seq<string>, other: seq<seq<string>>)
    requires Monotone(c, base, Documents(defs)) && other != []
    requires Flatten(other) == Documents(defs) && Admissible(c, base, 1, other)
    ensures |Partition(c, base, defs)| <= |other|
    ensures Admissible(c, base, 1, Partition(c, base, defs))
  {
    var docs := Documents(defs);
    PackAdmissible(c, base, 1, [], docs);
    if docs != [] {
      assert docs[0..] == docs && [] + [docs[0]] == docs[0..1];
      GreedyStaysAhead(c, base, 1, docs, 0, 0, 1, other);
    }
  }

  // ---- reading a partition back ----

  predicate SeparatorAt(s: string, i: int) {
    0 <= i && i + 5 <= |s| && s[i] == '\n' && s[i + 1] == '-' && s[i + 2] == '-' && s[i + 3] == '-' && s[i + 4] == '\n'
  }

  /** The position of the first separator, or the length of `s`. */
  function FirstSeparator(s: string): (n: nat)
    ensures n <= |s|
    ensures n < |s| ==> SeparatorAt(s, n)
    ensures forall i :: i < n ==> !SeparatorAt(s, i)
    ensures n == |s| ==> forall i :: !SeparatorAt(s, i)
  {
    if s == "" || SeparatorAt(s, 0) then 0
    else
      var n := FirstSeparator(s[1..]);
      assert forall i :: i > 0 ==> (SeparatorAt(s, i) <==> SeparatorAt(s[1..], i - 1));
      n + 1
  }

  function SplitDocuments(s: string): (r: seq<string>)
    ensures r != []
  {
    var n := FirstSeparator(s);
    if n == |s| then [s] else [s[..n]] + SplitDocuments(s[n + 5..])
  }

  function JoinDocuments(docs: seq<string>): string {
    if docs == [] then ""
    else if |docs| == 1 then docs[0]
    else docs[0] + SEPARATOR + JoinDocuments(docs[1..])
  }

  ghost predicate ContainsSeparator(d: string) { exists i :: SeparatorAt(d, i) }

  predicate EndsWithDashes(d: string) {
    var n := |d|;
    n >= 4 && d[n - 4] == '\n' && d[n - 3] == '-' && d[n - 2] == '-' && d[n - 1] == '-'
  }

  /** No document contains the separator, and none but the last ends with a line of dashes. */
  ghost predicate Separable(docs: seq<string>) {
    forall i :: 0 <= i < |docs| ==> !ContainsSeparator(docs[i]) && (i < |docs| - 1 ==> !EndsWithDashes(docs[i]))
  }

  lemma {:induction false} ConcatOfPieces(docs: seq<string>)
    ensures Concat(Pieces(docs)) == JoinDocuments(docs)
  {
    if docs != [] {
      assert Pieces(docs) == [docs[0]] + Separated(docs[1..]);
      ConcatCons(docs[0], Separated(docs[1..]));
      if |docs| == 1 {
        assert docs[0] + "" == docs[0];
      } else {
        ConcatOfSeparated(docs[1..]);
        Assoc(docs[0], SEPARATOR, JoinDocuments(docs[1..]));
      }
    }
  }

  function Separated(docs: seq<string>): seq<string> {
    seq(|docs|, i requires 0 <= i < |docs| => SEPARATOR + docs[i])
  }

  lemma ConcatCons(x: string, s: seq<string>)
    ensures Concat([x] + s) == x + Concat(s)
  {
    assert ([x] + s)[1..] == s;
  }

  /** The text of all pieces but the first starts with a separator. */
  lemma {:induction false} ConcatOfSeparated(docs: seq<string>)
    requires docs != []
    ensures Concat(Separated(docs)) == SEPARATOR + JoinDocuments(docs)
  {
    assert Separated(docs) == [SEPARATOR + docs[0]] + Separated(docs[1..]);
    ConcatCons(SEPARATOR + docs[0], Separated(docs[1..]));
    if |docs| == 1 {
      assert (SEPARATOR + docs[0]) + "" == SEPARATOR + docs[0];
    } else {
      ConcatOfSeparated(docs[1..]);
      SeparatedJoin(docs[0], JoinDocuments(docs[1..]));
    }
  }

  lemma SeparatedJoin(d: string, text: string)
    ensures (SEPARATOR + d) + (SEPARATOR + text) == SEPARATOR + (d + SEPARATOR + text)
  {
    Assoc(SEPARATOR, d, SEPARATOR + text);
    Assoc(d, SEPARATOR, text);
  }

  /** Where the first separator lies after a document. */
  lemma FirstAfter(d: string, rest: string)
    ensures FirstSeparator(d + SEPARATOR + rest) == |d| <==> !ContainsSeparator(d) && !EndsWithDashes(d)
  {
    var s := d + SEPARATOR + rest;
    assert SeparatorAt(s, |d|);
    forall i | i < |d| ensures SeparatorAt(s, i) <==> SeparatorAt(d, i) || (i == |d| - 4 && EndsWithDashes(d)) {
      assert 0 <= i ==> s[i] == d[i];
    }
    if EndsWithDashes(d) { assert SeparatorAt(s, |d| - 4); }
  }

  /** Round trip of one partition: splitting its text gives back its documents exactly when
      they are separable. */
  lemma {:induction false} SplitOfJoined(docs: seq<string>)
    requires docs != []
    ensures SplitDocuments(JoinDocuments(docs)) == docs <==> Separable(docs)
  {
    if |docs| == 1 {
      assert FirstSeparator(docs[0]) == |docs[0]| <==> !ContainsSeparator(docs[0]);
    } else {
      var rest := docs[1..];
      SplitHead(docs[0], JoinDocuments(rest));
      SplitOfJoined(rest);
      SeparableHead(docs);
      ConsEqual(docs[0], SplitDocuments(JoinDocuments(rest)), rest);
      assert docs == [docs[0]] + rest;
    }
  }

  /** The first document splits off exactly when it has no separator in it or at its end. */
  lemma SplitHead(d: string, text: string)
    ensures !ContainsSeparator(d) && !EndsWithDashes(d) ==>
              SplitDocuments(d + SEPARATOR + text) == [d] + SplitDocuments(text)
    ensures ContainsSeparator(d) || EndsWithDashes(d) ==> SplitDocuments(d + SEPARATOR + text)[0] != d
  {
    var s := d + SEPARATOR + text;
    var n := FirstSeparator(s);
    FirstAfter(d, text);
    SeparatorAfter(d, text);
    SplitOnce(s, |d|);
    SplitAround(d, text);
    assert n != |d| ==> |s[..n]| != |d|;
  }

  lemma SplitAround(d: string, text: string)
    ensures (d + SEPARATOR + text)[..|d|] == d && (d + SEPARATOR + text)[|d| + 5..] == text
  {
  }

  lemma ConsEqual(d: string, a: seq<string>, b: seq<string>)
    ensures [d] + a == [d] + b <==> a == b
  {
    assert ([d] + a)[1..] == a && ([d] + b)[1..] == b;
  }

  lemma SeparableHead(docs: seq<string>)
    requires |docs| >= 2
    ensures Separable(docs) <==> !ContainsSeparator(docs[0]) && !EndsWithDashes(docs[0]) && Separable(docs[1..])
  {
    var rest := docs[1..];
    assert forall i :: 0 <= i < |rest| ==> rest[i] == docs[i + 1];
    assert forall i :: 1 <= i < |docs| ==> docs[i] == rest[i - 1];
  }

  /** What reading all partitions in order gives. */
  function ReadBack(c: Codec, stored: seq<Bytes>): seq<string> {
    if stored == [] then [] else SplitDocuments(c.inflate(stored[0])) + ReadBack(c, stored[1..])
  }

  function Stored(c: Codec, parts: seq<seq<string>>): (r: seq<Bytes>)
    ensures |r| == |parts|
  {
    seq(|parts|, i requires 0 <= i < |parts| => c.closed(Pieces(parts[i])))
  }

  // ---- exactly when everything reads back ----

  lemma SeparatorOverlap(d: string, text: string, n: nat)
    requires SeparatorAt(d + SEPARATOR + text, n) && n < |d| < n + 5
    ensures n + 4 == |d| && (d + SEPARATOR + text)[n + 5..] == "---\n" + text
  {
    var s := d + SEPARATOR + text;
    assert s[|d|] == '\n';
    assert s[n + 5..] == SEPARATOR[1..] + text;
  }

  lemma {:induction false} SplitOnce(s: string, i: nat)
    requires SeparatorAt(s, i)
    ensures var n := FirstSeparator(s);
            n <= i && n + 5 <= |s| && SeparatorAt(s, n) && SplitDocuments(s) == [s[..n]] + SplitDocuments(s[n + 5..])
  {
    var n := FirstSeparator(s);
    assert n <= i;
    assert n < |s|;
  }

  lemma {:induction false} SplitAtFirst(d: string, text: string)
    ensures var s := d + SEPARATOR + text;
            var n := FirstSeparator(s);
            n <= |d| && n + 5 <= |s| && SeparatorAt(s, n) && |SplitDocuments(s)| == 1 + |SplitDocuments(s[n + 5..])|
  {
    SeparatorAfter(d, text);
    SplitOnce(d + SEPARATOR + text, |d|);
  }

  lemma SeparatorAfter(d: string, text: string)
    ensures SeparatorAt(d + SEPARATOR + text, |d|)
  {
  }

  /** Splitting never gives fewer documents than were joined. */
  lemma {:induction false} SplitCount(docs: seq<string>)
    requires docs != []
    ensures |SplitDocuments(JoinDocuments(docs))| >= |docs|
    decreases |docs|, |docs[0]|
  {
    if |docs| > 1 {
      var d, rest := docs[0], docs[1..];
      var text := JoinDocuments(rest);
      var n := FirstSeparator(d + SEPARATOR + text);
      SplitAtFirst(d, text);
      if n == |d| {
        SplitAround(d, text);
        SplitCount(rest);
      } else if n + 5 <= |d| {
        var later := [d[n + 5..]] + rest;
        HeadOfSum([d[n + 5..]], rest);
        assert [] + rest == rest;
        DropWithin(d, text, n + 5);
        SplitCount(later);
      } else {
        SeparatorOverlap(d, text, n);
        JoinExtended("---\n", rest);
        SplitCount(["---\n" + rest[0]] + rest[1..]);
      }
    }
  }

  lemma DropWithin(d: string, text: string, k: nat)
    requires k <= |d|
    ensures (d + SEPARATOR + text)[k..] == d[k..] + SEPARATOR + text
  {
  }

  lemma JoinExtended(x: string, docs: seq<string>)
    requires docs != []
    ensures JoinDocuments([x + docs[0]] + docs[1..]) == x + JoinDocuments(docs)
  {
    HeadOfSum([x + docs[0]], docs[1..]);
    assert [] + docs[1..] == docs[1..];
    if |docs| > 1 {
      Assoc(x, docs[0], SEPARATOR);
      Assoc(x, docs[0] + SEPARATOR, JoinDocuments(docs[1..]));
    }
  }

  lemma SameLengthSplit(a: seq<string>, x: seq<string>, b: seq<string>, y: seq<string>)
    requires a + x == b + y && |a| >= |b| && |x| >= |y|
    ensures a == b && x == y
  {
    assert |a + x| == |b + y|;
    assert a == (a + x)[..|a|] && x == (a + x)[|a|..] && b == (b + y)[..|b|] && y == (b + y)[|b|..];
  }

  lemma {:induction false} ReadBackIff(c: Codec, parts: seq<seq<string>>)
    requires Lossless(c) && forall p :: p in parts ==> p != []
    ensures |ReadBack(c, Stored(c, parts))| >= |Flatten(parts)|
    ensures ReadBack(c, Stored(c, parts)) == Flatten(parts) <==> forall p :: p in parts ==> Separable(p)
  {
    if parts != [] {
      var first, later := parts[0], parts[1..];
      assert parts == [first] + later;
      assert first in parts && forall p :: p in later ==> p in parts;
      ReadBackIff(c, later);
      assert Stored(c, parts)[1..] == Stored(c, later);
      assert c.inflate(c.closed(Pieces(first))) == Concat(Pieces(first));
      ConcatOfPieces(first);
      SplitOfJoined(first);
      SplitCount(first);
      var got := SplitDocuments(JoinDocuments(first));
      assert ReadBack(c, Stored(c, parts)) == got + ReadBack(c, Stored(c, later));
      if ReadBack(c, Stored(c, parts)) == Flatten(parts) {
        SameLengthSplit(got, ReadBack(c, Stored(c, later)), first, Flatten(later));
      }
    }
  }

  /** Decompressing the partitions in order and splitting them gives back exactly the trimmed
      non-empty documents if and only if every partition is separable. */
  lemma RoundTripIff(c: Codec, base: string, defs: seq<string>)
    requires Lossless(c) && Documents(defs) != []
    ensures ReadBack(c, Stored(c, Partition(c, base, defs))) == Documents(defs)
       <==> forall p :: p in Partition(c, base, defs) ==> Separable(p)
  {
    PartitionConserves(c, base, defs);
    ReadBackIff(c, Partition(c, base, defs));
  }

  lemma OneMarkSuffices(d: string)
    requires YamlReader.OneMark(d)
    ensures !ContainsSeparator(d) && !EndsWithDashes(d)
  {
    forall i | 0 <= i && i + 4 <= |d| && d[i] == '\n' ensures !(d[i + 1] == d[i + 2] == d[i + 3] == '-') {
      assert d[i + 1..i + 4] == [d[i + 1], d[i + 2], d[i + 3]];
    }
  }

  lemma {:induction false} DocumentsKeepOneMark(defs: seq<string>)
    requires forall d :: d in defs ==> YamlReader.OneMark(d)
    ensures forall d :: d in Documents(defs) ==> YamlReader.OneMark(d)
  {
    if defs != [] {
      assert defs[0] in defs;
      YamlReader.TrimSpaceKeeps(defs[0]);
      DocumentsKeepOneMark(defs[1..]);
    }
  }

  lemma {:induction false} SeparableParts(parts: seq<seq<string>>)
    requires forall d :: d in Flatten(parts) ==> YamlReader.OneMark(d)
    ensures forall p :: p in parts ==> Separable(p)
  {
    forall p | p in parts ensures Separable(p) {
      forall i | 0 <= i < |p| ensures !ContainsSeparator(p[i]) && !EndsWithDashes(p[i]) {
        PartOfFlatten(parts, p, p[i]);
        OneMarkSuffices(p[i]);
      }
    }
  }

  /** Round trip: whatever text the catalog is, decompressing its partitions in order and
      splitting them gives back exactly the trimmed non-empty documents read from it. Without any
      there is one partition, of the empty text. */
  lemma {:induction false} PartitionRoundTrip(c: Codec, base: string, content: string, fills: string -> bool)
    requires Lossless(c) && CatalogDocuments(content, fills).Some?
    ensures var defs := CatalogDocuments(content, fills).value;
            ReadBack(c, Stored(c, Partition(c, base, defs))) == if Documents(defs) == [] then [""] else Documents(defs)
  {
    var defs := CatalogDocuments(content, fills).value;
    var parts := Partition(c, base, defs);
    PartitionConserves(c, base, defs);
    if Documents(defs) == [] {
      NothingReadsBack(c);
    } else {
      YamlReader.DocumentsOfText(content, fills);
      DocumentsKeepOneMark(defs);
      SeparableParts(parts);
      ReadBackIff(c, parts);
    }
  }

  lemma {:induction false} NothingReadsBack(c: Codec)
    requires Lossless(c)
    ensures ReadBack(c, Stored(c, [[]])) == [""]
  {
    assert c.inflate(c.closed(Pieces([]))) == Concat(Pieces([]));
    assert Stored(c, [[]])[1..] == Stored(c, []);
    assert ReadBack(c, Stored(c, [[]])) == SplitDocuments("") + ReadBack(c, []);
  }

  /** From end to end: the blobs of a catalog, written behind marks, partitioned, compressed,
      decompressed and split, are the blobs without white space around them; the first one keeps
      its mark. */
  lemma {:induction false} CatalogRoundTrip(c: Codec, base: string, blobs: seq<seq<string>>, fills: string -> bool)
    requires Lossless(c) && blobs != [] && forall b :: b in blobs ==> YamlReader.IsBlob(b)
    ensures var defs := CatalogDocuments(YamlReader.LinesText(YamlReader.CatalogLines(blobs)), fills);
            && defs.Some?
            && ReadBack(c, Stored(c, Partition(c, base, defs.value)))
               == Documents([YamlReader.MARK + "\n" + YamlReader.LinesText(blobs[0])]
                            + seq(|blobs| - 1, i requires 0 <= i < |blobs| - 1 => YamlReader.LinesText(blobs[i + 1])))
  {
    var lines := YamlReader.CatalogLines(blobs);
    YamlReader.CatalogLinesAreLines(blobs);
    YamlReader.LinesOfText(lines, "", fills);
    assert YamlReader.LinesText(lines) + "" == YamlReader.LinesText(lines);
    YamlReader.CatalogReadsBack(blobs);
    PartitionRoundTrip(c, base, YamlReader.LinesText(lines), fills);
    StartsWithMark(YamlReader.LinesText(blobs[0]));
  }

  lemma {:induction false} StartsWithMark(text: string)
    ensures TrimSpace(YamlReader.MARK + "\n" + text) != ""
  {
    var s := YamlReader.MARK + "\n" + text;
    assert s[0] == '-' && TrimLeft(s) == s;
    TrimRightKeepsFirst(s);
  }

  lemma {:induction false} TrimRightKeepsFirst(s: string)
    requires s != "" && !IsSpace(s[0])
    ensures TrimRight(s) != ""
  {
    if IsSpace(s[|s| - 1]) { TrimRightKeepsFirst(s[..|s| - 1]); }
  }

  lemma {:induction false} PartOfFlatten(parts: seq<seq<string>>, p: seq<string>, d: string)
    requires p in parts && d in p
    ensures d in Flatten(parts)
  {
    if p != parts[0] {
      PartOfFlatten(parts[1..], p, d);
    }
  }
}
