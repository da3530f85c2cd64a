/** Reading the YAML documents of a text, which lines starting with dashes end. */
module YamlReader {
  import opened Wrappers
  import opened Seqs
  import opened Text

  const MARK := "---"

  datatype ReadOutcome = Document(text: string) | EndOfText | BadMark(rest: string)

  // ---- lines ----

  function WithoutReturn(line: string): string {
    if line != "" && line[|line| - 1] == '\r' then line[..|line| - 1] else line
  }

  /** The lines of a text that has been cut at its newlines: what follows the last newline is a
      line only if there is something, and it alone keeps a carriage return at its end. */
  function LinesOf(parts: seq<string>): seq<string>
    requires parts != []
  {
    if |parts| > 1 then [WithoutReturn(parts[0])] + LinesOf(parts[1..])
    else if parts[0] == "" then []
    else parts
  }

  /** Lines to come, and a last line that comes together with the end of the text. */
  datatype Input = Input(lines: seq<string>, tail: string)

  /** What is to be read of a text. A last line without a newline comes together with the end if
      it fills the buffer of the line reader, once or several times. */
  function Scan(text: string, fills: string -> bool): Input {
    var parts := Split(text, '\n');
    var last := parts[|parts| - 1];
    if last != "" && fills(last) then Input(LinesOf(parts[..|parts| - 1] + [""]), last) else Input(LinesOf(parts), "")
  }

  predicate IsMark(line: string) { MARK <= line }

  /** After the dashes only white space and comments are allowed. */
  predicate IsBadMark(line: string) {
    IsMark(line) && var rest := TrimSpace(line[|MARK|..]); rest != "" && rest[0] != '#'
  }

  // ---- the specification ----

  /** The next document, `buffer` of which has been read, and what is left. A mark ends a
      document unless nothing has been read of it, in which case the mark is its first line. A
      line that comes with the end is looked at for a bad mark and dropped. */
  function ReadFrom(input: Input, buffer: string): (r: (ReadOutcome, Input))
    ensures |r.1.lines| <= |input.lines|
    ensures r.0.Document? ==> r.0.text != "" && (|r.1.lines| < |input.lines| || buffer != "")
    ensures forall l :: l in r.1.lines ==> l in input.lines
    decreases |input.lines|
  {
    if input.lines == [] then
      var line := input.tail + "\n";
      (if IsBadMark(line) then BadMark(TrimSpace(line[|MARK|..])) else if buffer != "" then Document(buffer)
       else EndOfText,
       Input([], ""))
    else
      var line, left := input.lines[0] + "\n", Input(input.lines[1..], input.tail);
      if IsBadMark(line) then (BadMark(TrimSpace(line[|MARK|..])), left)
      else if IsMark(line) && buffer != "" then (Document(buffer), left)
      else ReadFrom(left, buffer + line)
  }

  /** All documents, unless there is a bad mark. */
  function Documents(input: Input): Option<seq<string>>
    decreases |input.lines|
  {
    var (outcome, left) := ReadFrom(input, "");
    match outcome
    case EndOfText => Some([])
    case BadMark(_) => None
    case Document(text) => Prepend([text], Documents(left))
  }

  function Prepend(first: seq<string>, rest: Option<seq<string>>): Option<seq<string>> {
    if rest.None? then None else Some(first + rest.value)
  }

  // ---- the reader ----

  class YAMLReader {
    const input: Input
    var next: nat

    constructor (text: string, fills: string -> bool)
      ensures input == Scan(text, fills) && next == 0
    {
      input, next := Scan(text, fills), 0;
    }

    predicate Valid()
      reads this
    {
      next <= |input.lines| + 1
    }

    function Left(): Input
      requires Valid()
      reads this
    {
      if next <= |input.lines| then Input(input.lines[next..], input.tail) else Input([], "")
    }

    /** The next line with a newline at its end; at the end of the text what comes with the end,
        and from then on just a newline. */
    method ReadLine() returns (line: string, eof: bool)
      requires Valid()
      modifies this
      ensures Valid() && eof == (old(Left()).lines == [])
      ensures if eof then line == old(Left()).tail + "\n" && Left() == Input([], "")
              else line == old(Left()).lines[0] + "\n" && Left() == Input(old(Left()).lines[1..], old(Left()).tail)
    {
      line, eof := "", next >= |input.lines|;
      if next < |input.lines| {
        line := input.lines[next];
        next := next + 1;
      } else if next == |input.lines| {
        line := input.tail;
        next := next + 1;
      }
      line := line + "\n";
    }

    method Read() returns (outcome: ReadOutcome)
      requires Valid()
      modifies this
      ensures Valid() && (outcome, Left()) == ReadFrom(old(Left()), "")
    {
      var buffer := "";
      while true
        invariant Valid() && ReadFrom(Left(), buffer) == ReadFrom(old(Left()), "")
        decreases |Left().lines|
      {
        var line, eof := ReadLine();
        if MARK <= line {
          var trimmed := TrimSpace(line[|MARK|..]);
          if |trimmed| > 0 && trimmed[0] != '#' {
            return BadMark(trimmed);
          }
          if |buffer| != 0 {
            return Document(buffer);
          }
          if eof {
            return EndOfText;
          }
        }
        if eof {
          return if |buffer| != 0 then Document(buffer) else EndOfText;
        }
        buffer := buffer + line;
      }
    }
  }

  // ---- a bad mark is always found ----

  ghost predicate HasBadMark(input: Input) {
    IsBadMark(input.tail + "\n") || exists l :: l in input.lines && IsBadMark(l + "\n")
  }

  lemma {:induction false} ReadFromFails(input: Input, buffer: string)
    ensures var (outcome, left) := ReadFrom(input, buffer);
            HasBadMark(input) <==> outcome.BadMark? || HasBadMark(left)
    decreases |input.lines|
  {
    var lines := input.lines;
    if lines != [] {
      assert lines == [lines[0]] + lines[1..];
      if !IsBadMark(lines[0] + "\n") && !(IsMark(lines[0] + "\n") && buffer != "") {
        ReadFromFails(Input(lines[1..], input.tail), buffer + (lines[0] + "\n"));
      }
    }
  }

  /** Reading fails exactly when some line has something else than a comment after the dashes. */
  lemma {:induction false} DocumentsFailIff(input: Input)
    ensures Documents(input).None? <==> HasBadMark(input)
    decreases |input.lines|
  {
    ReadFromFails(input, "");
    var (outcome, left) := ReadFrom(input, "");
    if outcome.Document? {
      DocumentsFailIff(left);
    } else if outcome.EndOfText? {
      EndLeavesNothing(input, "");
    }
  }

  lemma {:induction false} EndLeavesNothing(input: Input, buffer: string)
    requires ReadFrom(input, buffer).0.EndOfText?
    ensures ReadFrom(input, buffer).1 == Input([], "")
    decreases |input.lines|
  {
    if input.lines != [] {
      EndLeavesNothing(Input(input.lines[1..], input.tail), buffer + (input.lines[0] + "\n"));
    }
  }

  // ---- what comes with the end is dropped ----

  lemma {:induction false} ReadFromDrops(lines: seq<string>, tail: string, buffer: string)
    requires !IsBadMark(tail + "\n")
    ensures var (outcome, left) := ReadFrom(Input(lines, tail), buffer);
            var (outcome', left') := ReadFrom(Input(lines, ""), buffer);
            outcome == outcome' && left.lines == left'.lines && left'.tail == ""
              && (left.tail == tail || left.tail == "")
    decreases |lines|
  {
    if lines != [] { ReadFromDrops(lines[1..], tail, buffer + (lines[0] + "\n")); }
  }

  /** A line that comes together with the end is in no document. */
  lemma {:induction false} TailIsDropped(lines: seq<string>, tail: string)
    requires !IsBadMark(tail + "\n")
    ensures Documents(Input(lines, tail)) == Documents(Input(lines, ""))
    decreases |lines|
  {
    ReadFromDrops(lines, tail, "");
    var (outcome, left) := ReadFrom(Input(lines, tail), "");
    if outcome.Document? && left.tail == tail { TailIsDropped(left.lines, tail); }
  }

  // ---- no document has a mark after its first line ----

  /** No line but the first starts with the dashes. */
  ghost predicate OneMark(text: string) {
    forall i :: 0 <= i && i + 4 <= |text| && text[i] == '\n' ==> text[i + 1..i + 4] != MARK
  }

  predicate Whole(text: string) { text == "" || text[|text| - 1] == '\n' }

  lemma {:induction false} AppendLine(text: string, line: string)
    requires OneMark(text) && Whole(text) && '\n' !in line && (IsMark(line + "\n") ==> text == "")
    ensures OneMark(text + (line + "\n")) && Whole(text + (line + "\n"))
  {
    var full := line + "\n";
    var s := text + full;
    assert forall i :: |text| <= i < |text| + |line| ==> s[i] == line[i - |text|] && s[i] in line;
    forall i | 0 <= i < |text| && i + 4 <= |s| && s[i] == '\n' ensures s[i + 1..i + 4] != MARK {
      if i + 4 <= |text| {
        assert text[i] == '\n' && s[i + 1..i + 4] == text[i + 1..i + 4];
      } else if i == |text| - 1 {
        assert s[i + 1..i + 4] == full[..3];
      } else {
        assert s[|text| - 1] == text[|text| - 1] == '\n';
        assert s[i + 1..i + 4][|text| - 2 - i] == '\n';
      }
    }
  }

  lemma {:induction false} ReadFromKeeps(input: Input, buffer: string)
    requires OneMark(buffer) && Whole(buffer) && forall l :: l in input.lines ==> '\n' !in l
    ensures ReadFrom(input, buffer).0.Document? ==> OneMark(ReadFrom(input, buffer).0.text)
    decreases |input.lines|
  {
    var lines := input.lines;
    if lines != [] {
      var line := lines[0] + "\n";
      assert lines[0] in lines;
      if !IsBadMark(line) && !(IsMark(line) && buffer != "") {
        AppendLine(buffer, lines[0]);
        ReadFromKeeps(Input(lines[1..], input.tail), buffer + line);
      }
    }
  }

  lemma {:induction false} DocumentsKeep(input: Input)
    requires Documents(input).Some? && forall l :: l in input.lines ==> '\n' !in l
    ensures forall d :: d in Documents(input).value ==> d != "" && OneMark(d)
    decreases |input.lines|
  {
    var (outcome, left) := ReadFrom(input, "");
    ReadFromKeeps(input, "");
    if outcome.Document? {
      DocumentsKeep(left);
    }
  }

  lemma {:induction false} LinesHaveNoNewline(parts: seq<string>)
    requires parts != [] && forall p :: p in parts ==> '\n' !in p
    ensures forall l :: l in LinesOf(parts) ==> '\n' !in l
  {
    if |parts| > 1 {
      assert parts[0] in parts;
      LinesHaveNoNewline(parts[1..]);
    }
  }

  lemma {:induction false} SplitAvoids(s: string, sep: char)
    ensures forall p :: p in Split(s, sep) ==> sep !in p
  {
    if s != "" {
      SplitAvoids(s[1..], sep);
      var rest := Split(s[1..], sep);
      assert rest[0] in rest;
    }
  }

  /** Every document of a text is non-empty and has no mark after its first line. */
  lemma DocumentsOfText(text: string, fills: string -> bool)
    requires Documents(Scan(text, fills)).Some?
    ensures forall d :: d in Documents(Scan(text, fills)).value ==> d != "" && OneMark(d)
  {
    var parts := Split(text, '\n');
    SplitAvoids(text, '\n');
    LinesHaveNoNewline(parts);
    LinesHaveNoNewline(parts[..|parts| - 1] + [""]);
    DocumentsKeep(Scan(text, fills));
  }

  lemma PartKeeps(text: string, i: nat, j: nat)
    requires OneMark(text) && i <= j <= |text|
    ensures OneMark(text[i..j])
  {
    forall k | 0 <= k && k + 4 <= j - i && text[i..j][k] == '\n' ensures text[i..j][k + 1..k + 4] != MARK {
      SliceOfSlice(text, i, j, k + 1, k + 4);
      assert text[i + k] == '\n';
    }
  }

  lemma SliceOfSlice(text: string, i: nat, j: nat, a: nat, b: nat)
    requires i <= j <= |text| && a <= b <= j - i
    ensures text[i..j][a..b] == text[i + a..i + b]
  {
    var part := text[i..j];
    assert forall k :: a <= k < b ==> part[k] == text[i + k];
  }

  lemma {:induction false} TrimSpaceKeeps(text: string)
    requires OneMark(text)
    ensures OneMark(TrimSpace(text))
  {
    TrimLeftIsSuffix(text);
    var left := TrimLeft(text);
    PartKeeps(text, |text| - |left|, |text|);
    assert text[|text| - |left|..] == text[|text| - |left|..|text|];
    TrimRightIsPrefix(left);
    PartKeeps(left, 0, |TrimRight(left)|);
    assert TrimRight(left) == left[0..|TrimRight(left)|];
  }

  // ---- what a catalog writer wrote is read back ----

  function LinesText(lines: seq<string>): string {
    if lines == [] then "" else lines[0] + "\n" + LinesText(lines[1..])
  }

  /** The lines of a catalog: each blob is written behind a mark. */
  function CatalogLines(blobs: seq<seq<string>>): seq<string> {
    if blobs == [] then [] else [MARK] + blobs[0] + CatalogLines(blobs[1..])
  }

  /** Lines that survive being written. */
  ghost predicate PlainLines(lines: seq<string>) { forall l :: l in lines ==> '\n' !in l && WithoutReturn(l) == l }

  ghost predicate IsBlob(lines: seq<string>) {
    lines != [] && forall l :: l in lines ==> !IsMark(l + "\n") && '\n' !in l && WithoutReturn(l) == l
  }

  lemma {:induction false} ReadThrough(blob: seq<string>, later: seq<string>, buffer: string)
    requires forall l :: l in blob ==> !IsMark(l + "\n")
    ensures ReadFrom(Input(blob + later, ""), buffer) == ReadFrom(Input(later, ""), buffer + LinesText(blob))
    decreases |blob|
  {
    if blob == [] {
      assert blob + later == later && buffer + "" == buffer;
    } else {
      HeadOfSum(blob, later);
      assert blob[0] in blob;
      ReadThrough(blob[1..], later, buffer + (blob[0] + "\n"));
      Assoc(buffer, blob[0] + "\n", LinesText(blob[1..]));
    }
  }

  lemma {:induction false} TextOfBlob(blob: seq<string>)
    requires blob != []
    ensures LinesText(blob) != ""
  {
  }

  /** After the first blob's mark the documents are the blobs. */
  lemma {:induction false} BlobsReadBack(blob: seq<string>, later: seq<seq<string>>, buffer: string)
    requires IsBlob(blob) && forall b :: b in later ==> IsBlob(b)
    ensures var (outcome, left) := ReadFrom(Input(blob + CatalogLines(later), ""), buffer);
            outcome == Document(buffer + LinesText(blob))
            && Documents(left) == Some(seq(|later|, i requires 0 <= i < |later| => LinesText(later[i])))
    decreases |later|
  {
    ReadThrough(blob, CatalogLines(later), buffer);
    TextOfBlob(blob);
    if later != [] {
      var next, rest := later[0], later[1..];
      MarkEnds(next, CatalogLines(rest), buffer + LinesText(blob));
      BlobsReadBack(next, rest, "");
      assert "" + LinesText(next) == LinesText(next);
      assert seq(|later|, i requires 0 <= i < |later| => LinesText(later[i]))
             == [LinesText(next)] + seq(|rest|, i requires 0 <= i < |rest| => LinesText(rest[i]));
    }
  }

  lemma {:induction false} MarkEnds(blob: seq<string>, later: seq<string>, buffer: string)
    requires buffer != ""
    ensures ReadFrom(Input([MARK] + blob + later, ""), buffer) == (Document(buffer), Input(blob + later, ""))
  {
    assert ([MARK] + blob + later)[1..] == blob + later;
    NothingAfterMark();
  }

  lemma NothingAfterMark()
    ensures IsMark(MARK + "\n") && !IsBadMark(MARK + "\n")
  {
    assert (MARK + "\n")[3..] == "\n";
    assert TrimSpace("\n") == "";
  }

  /** A catalog's documents are its blobs; the first keeps the mark before it. */
  lemma {:induction false} CatalogReadsBack(blobs: seq<seq<string>>)
    requires blobs != [] && forall b :: b in blobs ==> IsBlob(b)
    ensures Documents(Input(CatalogLines(blobs), ""))
            == Some([MARK + "\n" + LinesText(blobs[0])]
                    + seq(|blobs| - 1, i requires 0 <= i < |blobs| - 1 => LinesText(blobs[i + 1])))
  {
    var blob, later := blobs[0], blobs[1..];
    var lines := CatalogLines(blobs);
    assert lines == [MARK] + (blob + CatalogLines(later));
    assert lines[1..] == blob + CatalogLines(later);
    NothingAfterMark();
    assert "" + (MARK + "\n") == MARK + "\n";
    BlobsReadBack(blob, later, MARK + "\n");
    assert seq(|later|, i requires 0 <= i < |later| => LinesText(later[i]))
           == seq(|blobs| - 1, i requires 0 <= i < |blobs| - 1 => LinesText(blobs[i + 1]));
  }

  lemma {:induction false} CatalogLinesAreLines(blobs: seq<seq<string>>)
    requires forall b :: b in blobs ==> IsBlob(b)
    ensures PlainLines(CatalogLines(blobs))
  {
    if blobs != [] {
      assert blobs[0] in blobs;
      CatalogLinesAreLines(blobs[1..]);
    }
  }

  lemma {:induction false} SplitFirstLine(line: string, later: string)
    requires '\n' !in line
    ensures Split(line + ("\n" + later), '\n') == [line] + Split(later, '\n')
  {
    SplitPrefix(line, "\n" + later, '\n');
    assert ("\n" + later)[1..] == later;
    assert Split("\n" + later, '\n') == [""] + Split(later, '\n');
    assert line + "" == line;
  }

  lemma LineFirst(line: string, more: string, rest: string)
    ensures (line + "\n" + more) + rest == line + ("\n" + (more + rest))
  {
  }

  lemma {:induction false} SplitAfterLines(lines: seq<string>, rest: string)
    requires PlainLines(lines)
    ensures Split(LinesText(lines) + rest, '\n') == lines + Split(rest, '\n')
  {
    if lines == [] {
      assert LinesText(lines) + rest == rest;
      assert lines + Split(rest, '\n') == Split(rest, '\n');
    } else {
      var line, more := lines[0], lines[1..];
      assert line in lines && lines == [line] + more;
      SplitAfterLines(more, rest);
      SplitFirstLine(line, LinesText(more) + rest);
      LineFirst(line, LinesText(more), rest);
      Assoc([line], more, Split(rest, '\n'));
    }
  }

  lemma {:induction false} LinesOfLines(lines: seq<string>, last: string)
    requires PlainLines(lines)
    ensures LinesOf(lines + [last]) == lines + if last == "" then [] else [last]
  {
    if lines == [] {
      assert [] + [last] == [last];
    } else {
      HeadOfSum(lines, [last]);
      LinesOfLines(lines[1..], last);
      assert lines[0] in lines;
    }
  }

  lemma {:induction false} NoNewlineSplit(tail: string)
    requires '\n' !in tail
    ensures Split(tail, '\n') == [tail]
  {
    SplitPrefix(tail, "", '\n');
    assert tail + "" == tail;
  }

  /** Lines survive being written and read. If something without a newline follows it is a line too,
      unless it fills the buffer: then it comes with the end. */
  lemma {:induction false} LinesOfText(lines: seq<string>, tail: string, fills: string -> bool)
    requires PlainLines(lines) && '\n' !in tail
    ensures Scan(LinesText(lines) + tail, fills)
            == if tail == "" then Input(lines, "") else if fills(tail) then Input(lines, tail)
               else Input(lines + [tail], "")
  {
    SplitAfterLines(lines, tail);
    NoNewlineSplit(tail);
    LinesOfLines(lines, tail);
    LinesOfLines(lines, "");
    assert (lines + [tail])[..|lines|] == lines;
  }

  // ---- marks and line ends ----

  /** Dashes may be followed by white space and then a comment, and by nothing else. */
  lemma BadMarkIff(rest: string)
    ensures IsMark("---" + rest)
    ensures IsBadMark("---" + rest) <==> TrimSpace(rest) != "" && TrimSpace(rest)[0] != '#'
  {
    assert ("---" + rest)[3..] == rest;
  }

  lemma {:induction false} LinesOfParts(parts: seq<string>, i: nat)
    requires |parts| >= 1 && i < |parts| - 1
    ensures |LinesOf(parts)| >= |parts| - 1
    ensures LinesOf(parts)[i] == if parts[i] != "" && parts[i][|parts[i]| - 1] == '\r' then parts[i][..|parts[i]| - 1]
            else parts[i]
  {
    if i > 0 {
      LinesOfParts(parts[1..], i - 1);
    } else if |parts| > 2 {
      LinesOfParts(parts[1..], 0);
    }
  }

  lemma {:induction false} SplitTwoLines(x: string, b: string)
    requires '\n' !in x && '\n' !in b
    ensures Split(x + ("\n" + (b + "\n")), '\n') == [x, b, ""]
  {
    SplitFirstLine(x, b + "\n");
    SplitFirstLine(b, "");
    assert "\n" + "" == "\n" && Split("", '\n') == [""];
  }

  lemma {:induction false} LinesOfTwo(x: string, y: string)
    ensures LinesOf([x, y, ""]) == [WithoutReturn(x), WithoutReturn(y)]
  {
    assert [x, y, ""][1..] == [y, ""] && [y, ""][1..] == [""];
    assert LinesOf([y, ""]) == [WithoutReturn(y)] + [];
  }

  /** A carriage return before a newline does not belong to the line. */
  lemma {:induction false} CarriageReturnDropped(a: string, b: string, fills: string -> bool)
    requires '\n' !in a && '\n' !in b && (b == "" || b[|b| - 1] != '\r')
    ensures Scan(a + "\r\n" + b + "\n", fills) == Input([a, b], "")
  {
    var x := a + "\r";
    assert a + "\r\n" + b + "\n" == x + ("\n" + (b + "\n"));
    SplitTwoLines(x, b);
    LinesOfTwo(x, b);
    assert x[..|x| - 1] == a;
  }
}
