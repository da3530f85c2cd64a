/** The text of the paths of a patch, and the paths a server reads from it. */
module PatchText {
  import opened Seqs
  import opened Text
  import opened EditDistance
  import opened JsonPatch

  // ---- what the library writes ----

  /** A path element as section 3 of RFC 6901 writes it. */
  function Encoded(part: string): (r: string)
    ensures '/' !in r
    ensures part != "" ==> r != ""
  {
    if part == "" then ""
    else
      var rest := Encoded(part[1..]);
      if part[0] == '~' then "~0" + rest
      else if part[0] == '/' then "~1" + rest
      else [part[0]] + rest
  }

  predicate EndsWithSlash(path: string) { path != "" && path[|path| - 1] == '/' }

  /** A path extended by one element. After a slash none is added, even if the slash belongs to
      an empty element. */
  function MakePath(path: string, part: string): string {
    if EndsWithSlash(path) then path + Encoded(part) else path + "/" + Encoded(part)
  }

  function PathText(parts: seq<string>): string {
    if parts == [] then "" else MakePath(PathText(parts[..|parts| - 1]), parts[|parts| - 1])
  }

  // ---- what a server reads ----

  /** Section 4 of RFC 6901: `~1` is a slash, `~0` a tilde. */
  function Decoded(part: string): string {
    if part == "" then ""
    else if |part| >= 2 && part[0] == '~' && part[1] == '0' then "~" + Decoded(part[2..])
    else if |part| >= 2 && part[0] == '~' && part[1] == '1' then "/" + Decoded(part[2..])
    else [part[0]] + Decoded(part[1..])
  }

  function DecodedAll(parts: seq<string>): (r: seq<string>)
    ensures |r| == |parts|
  {
    seq(|parts|, i requires 0 <= i < |parts| => Decoded(parts[i]))
  }

  /** The elements of a path: those between its slashes. */
  function ReadPath(text: string): seq<string> {
    if text == "" then [] else DecodedAll(Split(text[1..], '/'))
  }

  // ---- what becomes of a path ----

  /** The path without the empty elements that another one follows. */
  function WithoutEmpty(parts: seq<string>): (r: seq<string>)
    ensures |r| <= |parts| && (parts != [] ==> r != [] && r[|r| - 1] == parts[|parts| - 1])
  {
    if parts == [] then []
    else
      var init := WithoutEmpty(parts[..|parts| - 1]);
      (if init != [] && init[|init| - 1] == "" then init[..|init| - 1] else init) + [parts[|parts| - 1]]
  }

  lemma {:induction false} DecodedOfEncoded(part: string)
    ensures Decoded(Encoded(part)) == part
  {
    if part != "" {
      var rest := Encoded(part[1..]);
      DecodedOfEncoded(part[1..]);
      if part[0] == '~' {
        assert ("~0" + rest)[2..] == rest;
      } else if part[0] == '/' {
        assert ("~1" + rest)[2..] == rest;
      } else {
        assert ([part[0]] + rest)[1..] == rest;
      }
      assert part == [part[0]] + part[1..];
    }
  }

  /** The text after its first character, split at the slashes. */
  function Pieces(parts: seq<string>): (r: seq<string>)
    ensures |r| == |parts|
  {
    seq(|parts|, i requires 0 <= i < |parts| => Encoded(parts[i]))
  }

  /** A last piece after a separator. */
  lemma {:induction false} SplitNewPiece(s: string, sep: char, part: string)
    requires sep !in part
    ensures Split(s + [sep] + part, sep) == Split(s, sep) + [part]
    decreases |s|
  {
    if s == "" {
      SplitPrefix(part, "", sep);
      assert s + [sep] + part == [sep] + part && ([sep] + part)[1..] == part;
      assert part + "" == part;
    } else {
      SplitNewPiece(s[1..], sep, part);
      assert (s + [sep] + part)[1..] == s[1..] + [sep] + part;
    }
  }

  function ExtendLast(pieces: seq<string>, part: string): seq<string>
    requires pieces != []
  {
    pieces[..|pieces| - 1] + [pieces[|pieces| - 1] + part]
  }

  lemma ExtendFirst(x: char, pieces: seq<string>, part: string)
    requires pieces != []
    ensures var longer := ExtendLast(pieces, part);
            [[x] + longer[0]] + longer[1..] == ExtendLast([[x] + pieces[0]] + pieces[1..], part)
  {
    if |pieces| == 1 {
      Assoc([x], pieces[0], part);
    }
  }

  /** A longer last piece. */
  lemma {:induction false} SplitLongerPiece(s: string, sep: char, part: string)
    requires sep !in part
    ensures Split(s + part, sep) == ExtendLast(Split(s, sep), part)
    decreases |s|
  {
    if s == "" {
      SplitPrefix(part, "", sep);
      assert s + part == part && part + "" == part && "" + part == part;
    } else {
      var pieces := Split(s[1..], sep);
      SplitLongerPiece(s[1..], sep, part);
      assert (s + part)[1..] == s[1..] + part;
      if s[0] == sep {
        assert [""] + ExtendLast(pieces, part) == ExtendLast([""] + pieces, part);
      } else {
        ExtendFirst(s[0], pieces, part);
      }
    }
  }

  lemma {:induction false} LastPieceEmpty(s: string, sep: char)
    ensures var pieces := Split(s, sep);
            pieces[|pieces| - 1] == "" <==> s == "" || s[|s| - 1] == sep
  {
    if s != "" {
      LastPieceEmpty(s[1..], sep);
    }
  }

  lemma {:induction false} PiecesOfLast(parts: seq<string>, last: string)
    ensures Pieces(parts + [last]) == Pieces(parts) + [Encoded(last)]
  {
  }

  lemma {:induction false} PiecesOfPath(parts: seq<string>)
    requires parts != []
    ensures var text := PathText(parts);
            text != "" && text[0] == '/' && Split(text[1..], '/') == Pieces(WithoutEmpty(parts))
    decreases |parts|
  {
    var init, last := parts[..|parts| - 1], parts[|parts| - 1];
    if init == [] {
      OnePiece(last);
      assert WithoutEmpty(parts) == [last];
    } else {
      PiecesOfPath(init);
      OneMorePiece(PathText(init), WithoutEmpty(init), last);
    }
  }

  lemma {:induction false} OnePiece(last: string)
    ensures MakePath("", last) == "/" + Encoded(last) && Split(MakePath("", last)[1..], '/') == Pieces([last])
  {
    var part := Encoded(last);
    SplitPrefix(part, "", '/');
    assert part + "" == part && ("/" + part)[1..] == part;
  }

  lemma {:induction false} OneMorePiece(text: string, kept: seq<string>, last: string)
    requires text != "" && text[0] == '/' && kept != [] && Split(text[1..], '/') == Pieces(kept)
    ensures var longer := MakePath(text, last);
            var rest := (if kept[|kept| - 1] == "" then kept[..|kept| - 1] else kept) + [last];
            longer != "" && longer[0] == '/' && Split(longer[1..], '/') == Pieces(rest)
  {
    AddPart(text[1..], kept, last);
    assert text == "/" + text[1..];
    AfterSlash(text[1..], Encoded(last));
  }

  lemma {:induction false} AfterSlash(body: string, part: string)
    ensures ("/" + body + part)[1..] == body + part && ("/" + body + "/" + part)[1..] == body + "/" + part
    ensures EndsWithSlash("/" + body) <==> body == "" || body[|body| - 1] == '/'
  {
  }

  lemma {:induction false} AddPart(body: string, kept: seq<string>, last: string)
    requires kept != [] && Split(body, '/') == Pieces(kept)
    ensures var part := Encoded(last);
            if body == "" || body[|body| - 1] == '/'
            then kept[|kept| - 1] == "" && Split(body + part, '/') == Pieces(kept[..|kept| - 1] + [last])
            else kept[|kept| - 1] != "" && Split(body + "/" + part, '/') == Pieces(kept + [last])
  {
    var n := |kept| - 1;
    SplitNewPiece(body, '/', Encoded(last));
    SplitLongerPiece(body, '/', Encoded(last));
    LastPieceEmpty(body, '/');
    PiecesOfLast(kept, last);
    PiecesOfLast(kept[..n], last);
    assert Pieces(kept)[..n] == Pieces(kept[..n]);
    assert Pieces(kept)[n] == Encoded(kept[n]);
    assert "" + Encoded(last) == Encoded(last);
  }

  lemma {:induction false} DecodedPieces(parts: seq<string>)
    ensures DecodedAll(Pieces(parts)) == parts
  {
    forall i | 0 <= i < |parts| ensures Decoded(Pieces(parts)[i]) == parts[i] { DecodedOfEncoded(parts[i]); }
  }

  /** The path a server reads lacks the empty elements that another one follows. */
  lemma {:induction false} ReadsWithoutEmpty(parts: seq<string>)
    ensures ReadPath(PathText(parts)) == WithoutEmpty(parts)
  {
    if parts != [] {
      var kept := WithoutEmpty(parts);
      PiecesOfPath(parts);
      DecodedPieces(kept);
    }
  }

  predicate EmptyOnlyLast(parts: seq<string>) { forall i :: 0 <= i < |parts| - 1 ==> parts[i] != "" }

  lemma {:induction false} EmptyOnlyLastInit(parts: seq<string>)
    requires parts != []
    ensures var init := parts[..|parts| - 1];
            EmptyOnlyLast(parts) <==> EmptyOnlyLast(init) && (init == [] || init[|init| - 1] != "")
  {
    var init := parts[..|parts| - 1];
    assert forall i :: 0 <= i < |init| ==> init[i] == parts[i];
  }

  lemma {:induction false} WithoutEmptyIff(parts: seq<string>)
    ensures if EmptyOnlyLast(parts) then WithoutEmpty(parts) == parts else |WithoutEmpty(parts)| < |parts|
    decreases |parts|
  {
    if parts != [] {
      var init := parts[..|parts| - 1];
      EmptyOnlyLastInit(parts);
      WithoutEmptyIff(init);
      assert parts == init + [parts[|parts| - 1]];
    }
  }

  /** A path reads back exactly when no element but the last is empty. */
  lemma {:induction false} ReadsBackIff(parts: seq<string>)
    ensures ReadPath(PathText(parts)) == parts <==> EmptyOnlyLast(parts)
  {
    ReadsWithoutEmpty(parts);
    WithoutEmptyIff(parts);
  }

  // ---- operations that are read as they are meant ----

  function Part(k: Key): string { if k.Field? then k.name else Decimal(k.i) }

  function Parts(path: seq<Key>): (r: seq<string>)
    ensures |r| == |path|
  {
    seq(|path|, i requires 0 <= i < |path| => Part(path[i]))
  }

  /** The path is printed between quotation marks as it is, so it must not contain any. */
  predicate Intact(op: Op) {
    '"' !in PathText(Parts(op.path)) && ReadPath(PathText(Parts(op.path))) == Parts(op.path)
  }

  predicate AllIntact(ops: seq<Op>) { forall i :: 0 <= i < |ops| ==> Intact(ops[i]) }

  /** A key that keeps its meaning anywhere in a path. */
  predicate Addressable(key: string) { key != "" && '"' !in key }

  predicate AllAddressable(doc: Json) {
    match doc
    case Obj(f) => forall k :: k in f ==> Addressable(k) && AllAddressable(f[k])
    case Arr(items) => forall i :: 0 <= i < |items| ==> AllAddressable(items[i])
    case _ => true
  }

  predicate GoodPath(path: seq<Key>) { forall i :: 0 <= i < |path| && path[i].Field? ==> Addressable(path[i].name) }

  /** All paths but those of removals are good. */
  predicate GoodPaths(ops: seq<Op>) { forall i :: 0 <= i < |ops| && ops[i].kind != Remove ==> GoodPath(ops[i].path) }

  lemma {:induction false} UnderGood(k: Key, ops: seq<Op>)
    requires GoodPaths(ops) && (k.Field? ==> Addressable(k.name))
    ensures GoodPaths(Under(k, ops))
  {
    if ops != [] {
      UnderGood(k, ops[1..]);
      assert forall i :: 0 <= i < |ops[1..]| ==> ops[1..][i] == ops[i + 1];
    }
  }

  lemma {:induction false} AddsGood(n: nat, items: seq<Json>)
    ensures GoodPaths(AddsFrom(n, items))
    decreases |items|
  {
    if items != [] { AddsGood(n + 1, items[1..]); }
  }

  lemma {:induction false} RemovesGood(n: nat, len: nat, keys: seq<string>, fb: map<string, Json>)
    requires n <= len
    ensures GoodPaths(RemovesFrom(n, len)) && GoodPaths(Removes(keys, fb))
    decreases len + |keys|
  {
    if n < len { RemovesGood(n, len - 1, keys, fb); }
    if keys != [] { RemovesGood(n, len, keys[1..], fb); }
  }

  lemma {:induction false} ConsGood(op: Op, ops: seq<Op>)
    requires GoodPath(op.path) && GoodPaths(ops)
    ensures GoodPaths([op] + ops)
  {
  }

  lemma {:induction false} EditsGood(ia: seq<Json>, ib: seq<Json>, i: nat, j: nat)
    requires i <= |ia| && j <= |ib|
    ensures GoodPaths(Edits(ia, ib, i, j))
    decreases i + j
  {
    if i + j > 0 {
      match LastEdit(ia, ib, i, j)
      case Drop =>
        EditsGood(ia, ib, i - 1, j);
        ConsGood(Op(Remove, [Index(i - 1)], Null), Edits(ia, ib, i - 1, j));
      case Insert =>
        EditsGood(ia, ib, i, j - 1);
        ConsGood(Op(Add, [Index(i)], ib[j - 1]), Edits(ia, ib, i, j - 1));
      case Change =>
        EditsGood(ia, ib, i - 1, j - 1);
        ConsGood(Op(Replace, [Index(i - 1)], ib[j - 1]), Edits(ia, ib, i - 1, j - 1));
      case Keep => EditsGood(ia, ib, i - 1, j - 1);
    }
  }

  lemma {:induction false} FieldsGood(order: KeyOrder, fa: map<string, Json>, b: Json, keys: seq<string>)
    requires b.Obj? && AllAddressable(b)
    ensures GoodPaths(DiffFields(order, fa, b, keys))
    decreases b, 0, |keys|
  {
    if keys != [] {
      var k := keys[0];
      FieldsGood(order, fa, b, keys[1..]);
      if k in b.fields && k in fa {
        DiffGood(order, fa[k], b.fields[k]);
        UnderGood(Field(k), Diff(order, fa[k], b.fields[k]));
      }
    }
  }

  lemma {:induction false} ItemsGood(order: KeyOrder, ia: seq<Json>, b: Json, n: nat)
    requires b.Arr? && AllAddressable(b) && n <= |ia| && n <= |b.items|
    ensures GoodPaths(DiffItems(order, ia, b, n))
    decreases b, 0, n
  {
    if n > 0 {
      ItemsGood(order, ia, b, n - 1);
      DiffGood(order, ia[n - 1], b.items[n - 1]);
      UnderGood(Index(n - 1), Diff(order, ia[n - 1], b.items[n - 1]));
    }
  }

  lemma {:induction false} DiffGood(order: KeyOrder, a: Json, b: Json)
    requires AllAddressable(b)
    ensures GoodPaths(Diff(order, a, b))
    decreases b, 1, 0
  {
    match (a, b)
    case (Obj(fa), Obj(fb)) =>
      FieldsGood(order, fa, b, order(fb));
      RemovesGood(0, 0, order(fa), fb);
    case (Arr(ia), Arr(ib)) =>
      var n := Shorter(ia, ib);
      EditsGood(ia, ib, |ia|, |ib|);
      RemovesGood(n, |ia|, [], map[]);
      AddsGood(n, ib[n..]);
      ItemsGood(order, ia, b, n);
    case _ =>
  }

  lemma {:induction false} DigitsOf(n: nat)
    ensures Decimal(n) != "" && '"' !in Decimal(n)
  {
    if n >= 10 { DigitsOf(n / 10); }
  }

  lemma {:induction false} EncodedHasNoQuote(part: string)
    requires '"' !in part
    ensures '"' !in Encoded(part)
  {
    if part != "" { EncodedHasNoQuote(part[1..]); }
  }

  lemma {:induction false} TextHasNoQuote(parts: seq<string>)
    requires forall p :: p in parts ==> '"' !in p
    ensures '"' !in PathText(parts)
    decreases |parts|
  {
    if parts != [] {
      var last := parts[|parts| - 1];
      TextHasNoQuote(parts[..|parts| - 1]);
      assert last in parts;
      EncodedHasNoQuote(last);
    }
  }

  lemma {:induction false} GoodIsIntact(op: Op)
    requires GoodPath(op.path)
    ensures Intact(op)
  {
    var parts := Parts(op.path);
    forall i | 0 <= i < |parts| ensures parts[i] != "" && '"' !in parts[i] {
      if op.path[i].Index? { DigitsOf(op.path[i].i); }
    }
    TextHasNoQuote(parts);
    ReadsBackIff(parts);
  }

  lemma {:induction false} FilterGood(ops: seq<Op>)
    requires GoodPaths(ops)
    ensures AllIntact(Filter(ops))
  {
    if ops != [] {
      assert forall i :: 0 <= i < |ops[1..]| ==> ops[1..][i] == ops[i + 1];
      FilterGood(ops[1..]);
      if Relevant(ops[0]) { GoodIsIntact(ops[0]); }
    }
  }

  /** If all keys that are seen of the expected document are addressable, every operation is read
      as it is meant. */
  lemma {:induction false} SentIsIntact(order: KeyOrder, a: Json, b: Json)
    requires AllAddressable(Seen(b))
    ensures AllIntact(Sent(order, a, b))
  {
    DiffGood(order, Seen(a), Seen(b));
    FilterGood(Diff(order, Seen(a), Seen(b)));
  }

  /** A field below an empty key is put beside that key instead, and one with a quotation mark
      breaks the text. */
  lemma {:induction false} OddPaths()
    ensures ReadPath(PathText(["", "a"])) == ["a"]
    ensures !Intact(Op(Add, [Field(""), Field("a")], Null)) && !Intact(Op(Add, [Field("\"")], Null))
  {
    var p := ["", "a"];
    ReadsWithoutEmpty(p);
    assert p[..1] == [""] && [""][..0] == [] && [""][0] == "" && p[1] == "a";
    assert WithoutEmpty([""]) == [""];
    assert WithoutEmpty(p) == ["a"];
    assert Parts([Field(""), Field("a")]) == p;
    var q := ["\""];
    assert Parts([Field("\"")]) == q && q[..0] == [];
    assert Encoded("\"") == "\"" by { assert "\""[1..] == ""; }
    assert PathText(q) == "/\"" && "/\""[1] == '"';
  }

  lemma EncodedExamples()
    ensures Encoded("a/b") == "a~1b" && Encoded("~c") == "~0c"
  {
    assert Encoded("b") == "b" by { assert "b"[1..] == ""; }
    assert Encoded("/b") == "~1b" by { assert "/b"[1..] == "b"; }
    assert "a/b"[1..] == "/b";
    assert Encoded("c") == "c" by { assert "c"[1..] == ""; }
    assert "~c"[1..] == "c";
  }

  /** How slashes and tildes are written. */
  lemma {:induction false} SlashesAndTildes()
    ensures PathText(["a/b", "~c"]) == "/a~1b/~0c"
  {
    var p := ["a/b", "~c"];
    EncodedExamples();
    assert p[..1] == ["a/b"] && ["a/b"][..0] == [] && ["a/b"][0] == "a/b";
    assert PathText([]) == "" && PathText(["a/b"]) == "/a~1b";
  }
}
