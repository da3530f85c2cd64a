/** The `--install-mode` flag value: parsing, printing and validation. */
module InstallModes {
  import opened Sorting
  import opened Text

  const ALL_NAMESPACES := "AllNamespaces"
  const OWN_NAMESPACE := "OwnNamespace"
  const SINGLE_NAMESPACE := "SingleNamespace"
  const MULTI_NAMESPACE := "MultiNamespace"

  datatype Mode = Mode(kind: string, targets: seq<string>)

  const FRESH := Mode("", [])

  datatype Verdict =
    | Accepted
    | MustHaveZeroTargets
    | MustHaveOneTarget
    | MustHaveSomeTarget
    | TargetsWithoutType
    | UnknownType
    | InvalidNamespace(ns: string)

  function ValidateTargets(targets: seq<string>): (v: Verdict)
    ensures v.Accepted? <==> forall ns :: ns in targets ==> IsDNS1123Label(ns)
    ensures v.Accepted? || (v.InvalidNamespace? && v.ns in targets && !IsDNS1123Label(v.ns))
  {
    if targets == [] then Accepted
    else if !IsDNS1123Label(targets[0]) then InvalidNamespace(targets[0])
    else ValidateTargets(targets[1..])
  }

  predicate KnownKind(kind: string) {
    kind == ALL_NAMESPACES || kind == OWN_NAMESPACE || TakesTargets(kind) || kind == ""
  }

  predicate TakesTargets(kind: string) { kind == SINGLE_NAMESPACE || kind == MULTI_NAMESPACE }

  function Validate(m: Mode): Verdict {
    if (m.kind == ALL_NAMESPACES || m.kind == OWN_NAMESPACE) && |m.targets| != 0 then MustHaveZeroTargets
    else if m.kind == SINGLE_NAMESPACE && |m.targets| != 1 then MustHaveOneTarget
    else if m.kind == MULTI_NAMESPACE && |m.targets| == 0 then MustHaveSomeTarget
    else if m.kind == "" && |m.targets| != 0 then TargetsWithoutType
    else if !KnownKind(m.kind) then UnknownType
    else ValidateTargets(m.targets)
  }

  /** The position of the first `c`, or the length of `s`. */
  function IndexOf(s: string, c: char): (i: nat)
    ensures i <= |s| && c !in s[..i]
    ensures i < |s| ==> s[i] == c
  {
    if s == "" || s[0] == c then 0
    else
      assert forall k :: k in s[..1 + IndexOf(s[1..], c)] ==> k == s[0] || k in s[1..][..IndexOf(s[1..], c)];
      1 + IndexOf(s[1..], c)
  }

  function TrimAll(parts: seq<string>): (r: seq<string>)
    ensures |r| == |parts|
  {
    seq(|parts|, i requires 0 <= i < |parts| => TrimSpace(parts[i]))
  }

  /** What parsing `s` leaves in a flag value that held `before`. */
  function Parsed(before: Mode, s: string): Mode {
    var eq := IndexOf(s, '=');
    if eq < |s| then Mode(s[..eq], Sort(StrLeq, before.targets + TrimAll(Split(s[eq + 1..], ','))))
    else Mode(s, [])
  }

  function Printed(m: Mode): string {
    if TakesTargets(m.kind)
    then m.kind + "=" + Join(m.targets, ',')
    else m.kind
  }

  /** The flag value itself, updated in place by `Set`. */
  class InstallMode {
    var installModeType: string
    var targetNamespaces: seq<string>

    function Value(): Mode
      reads this
    {
      Mode(installModeType, targetNamespaces)
    }

    constructor ()
      ensures Value() == FRESH
    {
      installModeType, targetNamespaces := "", [];
    }

    method Set(str: string) returns (verdict: Verdict)
      modifies this
      ensures Value() == Parsed(old(Value()), str)
      ensures verdict == Validate(Value())
    {
      var eq := IndexOf(str, '=');
      installModeType := str[..eq];
      if eq < |str| {
        var namespaces := Split(str[eq + 1..], ',');
        var i := 0;
        while i < |namespaces|
          invariant 0 <= i <= |namespaces|
          invariant installModeType == str[..eq]
          invariant targetNamespaces == old(targetNamespaces) + TrimAll(namespaces)[..i]
        {
          targetNamespaces := targetNamespaces + [TrimSpace(namespaces[i])];
          i := i + 1;
        }
        assert TrimAll(namespaces)[..i] == TrimAll(namespaces);
        targetNamespaces := Sort(StrLeq, targetNamespaces);
      } else {
        assert str[..eq] == str;
        targetNamespaces := [];
      }
      verdict := Validate(Value());
    }
  }

  lemma LabelHasNoSeparator(s: string)
    requires IsDNS1123Label(s)
    ensures ',' !in s && '=' !in s && Trimmed(s)
  {
  }

  lemma TrimAllOfLabels(parts: seq<string>)
    requires forall p :: p in parts ==> IsDNS1123Label(p)
    ensures TrimAll(parts) == parts
  {
    forall i | 0 <= i < |parts| ensures TrimAll(parts)[i] == parts[i] {
      assert parts[i] in parts;
      LabelHasNoSeparator(parts[i]);
      TrimSpaceOfTrimmed(parts[i]);
    }
  }

  lemma {:induction false} IndexOfSplitPoint(p: string, rest: string, c: char)
    requires c !in p
    ensures IndexOf(p + [c] + rest, c) == |p|
  {
    var s := p + [c] + rest;
    assert s[|p|] == c && s[..|p|] == p;
  }

  lemma KindHasNoSeparator(kind: string)
    requires KnownKind(kind)
    ensures '=' !in kind
  {
  }

  lemma ParseBareKind(before: Mode, kind: string)
    requires '=' !in kind
    ensures Parsed(before, kind) == Mode(kind, [])
  {
  }

  lemma ParseTargetList(before: Mode, kind: string, targets: seq<string>)
    requires '=' !in kind && targets != []
    requires forall ns :: ns in targets ==> IsDNS1123Label(ns)
    ensures Parsed(before, kind + "=" + Join(targets, ',')) == Mode(kind, Sort(StrLeq, before.targets + targets))
  {
    var body := Join(targets, ',');
    var s := kind + "=" + body;
    assert s == kind + ['='] + body;
    IndexOfSplitPoint(kind, body, '=');
    assert s[..|kind|] == kind && s[|kind| + 1..] == body;
    forall p | p in targets ensures ',' !in p { LabelHasNoSeparator(p); }
    SplitOfJoin(targets, ',');
    TrimAllOfLabels(targets);
  }

  /** Parsing what was printed adds exactly the printed namespaces to those already held. */
  lemma {:induction false} ParsePrinted(before: Mode, m: Mode)
    requires Validate(m).Accepted?
    ensures Parsed(before, Printed(m)) ==
            if TakesTargets(m.kind)
            then Mode(m.kind, Sort(StrLeq, before.targets + m.targets)) else m
  {
    KindHasNoSeparator(m.kind);
    if TakesTargets(m.kind) {
      ParseTargetList(before, m.kind, m.targets);
    } else {
      ParseBareKind(before, m.kind);
    }
  }

  /** A valid value with sorted namespaces prints to a string that parses to it. */
  lemma {:induction false} ParsePrintedSorted(m: Mode)
    requires Validate(m).Accepted? && Sorted(StrLeq, m.targets)
    ensures Parsed(FRESH, Printed(m)) == m
  {
    ParsePrinted(FRESH, m);
    assert [] + m.targets == m.targets;
    StrLeqIsTotalOrder();
    SortOfSorted(StrLeq, m.targets);
  }

  /** Round trip: every accepted string prints to one that parses to the same value. */
  lemma {:induction false} SetPrintSet(s: string)
    requires Validate(Parsed(FRESH, s)).Accepted?
    ensures Parsed(FRESH, Printed(Parsed(FRESH, s))) == Parsed(FRESH, s)
    ensures Printed(Parsed(FRESH, Printed(Parsed(FRESH, s)))) == Printed(Parsed(FRESH, s))
  {
    ParsedIsSorted(FRESH, s);
    ParsePrintedSorted(Parsed(FRESH, s));
  }

  lemma ParsedIsSorted(before: Mode, s: string)
    ensures Sorted(StrLeq, Parsed(before, s).targets)
  {
    StrLeqIsTotalOrder();
    var eq := IndexOf(s, '=');
    if eq < |s| {
      SortSorts(StrLeq, before.targets + TrimAll(Split(s[eq + 1..], ',')));
    }
  }

  /** The values a fresh flag can reach by an accepted string are the valid sorted ones. */
  lemma ReachableModes(m: Mode)
    ensures (exists s :: Parsed(FRESH, s) == m && Validate(m).Accepted?)
        <==> Validate(m).Accepted? && Sorted(StrLeq, m.targets)
  {
    if Validate(m).Accepted? && Sorted(StrLeq, m.targets) {
      ParsePrintedSorted(m);
    }
    forall s | Parsed(FRESH, s) == m ensures Sorted(StrLeq, m.targets) { ParsedIsSorted(FRESH, s); }
  }

  lemma SortedTogether(x: seq<string>, y: seq<string>)
    ensures var both := Sort(StrLeq, x + y);
            && multiset(both) == multiset(x) + multiset(y)
            && |both| == |x| + |y|
            && Sorted(StrLeq, both)
            && forall ns :: ns in both <==> ns in x || ns in y
  {
    StrLeqIsTotalOrder();
    SortSorts(StrLeq, x + y);
    var both := Sort(StrLeq, x + y);
    assert |both| == |multiset(both)| == |multiset(x)| + |multiset(y)|;
    forall ns ensures ns in both <==> ns in x || ns in y {
      assert ns in both <==> ns in multiset(both);
    }
  }

  /** An accepted value has namespaces exactly if its kind takes some. */
  lemma {:induction false} AcceptedTargets(m: Mode)
    requires Validate(m).Accepted?
    ensures TakesTargets(m.kind) <==> m.targets != []
    ensures forall ns :: ns in m.targets ==> IsDNS1123Label(ns)
  {
  }

  lemma {:induction false} ParsedTargets(before: Mode, s: string)
    ensures var eq := IndexOf(s, '=');
            var m := Parsed(before, s);
            if eq == |s| then m == Mode(s, [])
            else
              var given := TrimAll(Split(s[eq + 1..], ','));
              && m.kind == s[..eq] && Sorted(StrLeq, m.targets) && m.targets != []
              && |m.targets| == |before.targets| + |given|
              && multiset(m.targets) == multiset(before.targets) + multiset(given)
              && forall ns :: ns in m.targets <==> ns in before.targets || ns in given
  {
    var eq := IndexOf(s, '=');
    if eq < |s| {
      var given := TrimAll(Split(s[eq + 1..], ','));
      var m := Parsed(before, s);
      assert |given| >= 1 && m.targets == Sort(StrLeq, before.targets + given);
      SortedTogether(before.targets, given);
    } else {
      assert s[..eq] == s;
    }
  }

  lemma {:induction false} ValidWithTargets(m: Mode)
    requires TakesTargets(m.kind) && m.targets != [] && forall ns :: ns in m.targets ==> IsDNS1123Label(ns)
    ensures Validate(m).Accepted? <==> m.kind != SINGLE_NAMESPACE || |m.targets| == 1
  {
    assert ValidateTargets(m.targets).Accepted?;
    DistinctKindNames();
  }

  lemma DistinctKindNames()
    ensures ALL_NAMESPACES != SINGLE_NAMESPACE && ALL_NAMESPACES != MULTI_NAMESPACE
    ensures OWN_NAMESPACE != SINGLE_NAMESPACE && OWN_NAMESPACE != MULTI_NAMESPACE
    ensures SINGLE_NAMESPACE != MULTI_NAMESPACE && SINGLE_NAMESPACE != "" && MULTI_NAMESPACE != ""
  {
    assert ALL_NAMESPACES[0] == 'A' && OWN_NAMESPACE[0] == 'O' && SINGLE_NAMESPACE[0] == 'S'
           && MULTI_NAMESPACE[0] == 'M';
  }

  /** A string with namespaces adds them to those held before. */
  lemma {:induction false} AddsTargets(before: Mode, s: string)
    requires IndexOf(s, '=') < |s|
    ensures var alone, m := Parsed(FRESH, s), Parsed(before, s);
            && m.kind == alone.kind && Sorted(StrLeq, m.targets) && alone.targets != []
            && multiset(m.targets) == multiset(before.targets) + multiset(alone.targets)
            && |m.targets| == |before.targets| + |alone.targets|
            && forall ns :: ns in m.targets ==> ns in before.targets || ns in alone.targets
  {
    ParsedTargets(FRESH, s);
    ParsedTargets(before, s);
    assert multiset(FRESH.targets) == multiset{};
  }

  /** `Set` appends to the namespaces already held. Giving the flag twice, with any two strings
      that are accepted on their own, therefore ends with the second kind; with the namespaces
      of both, sorted, if that kind takes any; and it is accepted unless that kind is the one
      for a single namespace and the first string had namespaces too. */
  lemma {:induction false} SetTwice(first: string, second: string)
    requires Validate(Parsed(FRESH, first)).Accepted? && Validate(Parsed(FRESH, second)).Accepted?
    ensures var m1, m2 := Parsed(FRESH, first), Parsed(FRESH, second);
            var m := Parsed(m1, second);
            && m.kind == m2.kind
            && Sorted(StrLeq, m.targets)
            && multiset(m.targets) == (if TakesTargets(m2.kind) then multiset(m1.targets) + multiset(m2.targets)
                                       else multiset{})
            && (Validate(m).Accepted? <==> m2.kind != SINGLE_NAMESPACE || m1.targets == [])
  {
    var m1, m2 := Parsed(FRESH, first), Parsed(FRESH, second);
    var m := Parsed(m1, second);
    AcceptedTargets(m1);
    AcceptedTargets(m2);
    if IndexOf(second, '=') < |second| {
      AddsTargets(m1, second);
      ValidWithTargets(m2);
      ValidWithTargets(m);
    } else {
      ParsedTargets(FRESH, second);
      ParsedTargets(m1, second);
    }
  }

  // ---- which values are valid ----

  /** Exactly the values that are accepted. */
  lemma {:induction false} AcceptedIff(m: Mode)
    ensures Validate(m).Accepted?
       <==> || ((m.kind == "AllNamespaces" || m.kind == "OwnNamespace" || m.kind == "") && m.targets == [])
            || (m.kind == "SingleNamespace" && |m.targets| == 1 && IsDNS1123Label(m.targets[0]))
            || (m.kind == "MultiNamespace" && |m.targets| >= 1 && forall ns :: ns in m.targets ==> IsDNS1123Label(ns))
  {
    DistinctKindNames();
  }

  /** What is said of the values that are not. */
  lemma {:induction false} VerdictOf(m: Mode)
    ensures (m.kind == "AllNamespaces" || m.kind == "OwnNamespace") && m.targets != [] ==>
              Validate(m) == MustHaveZeroTargets
    ensures m.kind == "SingleNamespace" && |m.targets| != 1 ==> Validate(m) == MustHaveOneTarget
    ensures m.kind == "MultiNamespace" && m.targets == [] ==> Validate(m) == MustHaveSomeTarget
    ensures m.kind == "" && m.targets != [] ==> Validate(m) == TargetsWithoutType
    ensures m.kind !in {"AllNamespaces", "OwnNamespace", "SingleNamespace", "MultiNamespace", ""} ==>
              Validate(m) == UnknownType
  {
    DistinctKindNames();
  }

  /** A string is a kind, or a kind and the namespaces after the first equality sign, separated by
      commas and taken without white space around them. */
  lemma {:induction false} ParsedIs(kind: string, namespaces: seq<string>)
    requires '=' !in kind && namespaces != [] && forall ns :: ns in namespaces ==> ',' !in ns
    ensures Parsed(FRESH, kind) == Mode(kind, [])
    ensures var m := Parsed(FRESH, kind + "=" + Join(namespaces, ','));
            && m.kind == kind && Sorted(StrLeq, m.targets)
            && multiset(m.targets) == multiset(seq(|namespaces|,
                                                   i requires 0 <= i < |namespaces| => TrimSpace(namespaces[i])))
  {
    var body := Join(namespaces, ',');
    var s := kind + "=" + body;
    ParseBareKind(FRESH, kind);
    assert s == kind + ['='] + body;
    IndexOfSplitPoint(kind, body, '=');
    assert s[..|kind|] == kind && s[|kind| + 1..] == body;
    SplitOfJoin(namespaces, ',');
    SortedTogether([], TrimAll(namespaces));
    assert TrimAll(namespaces) == seq(|namespaces|, i requires 0 <= i < |namespaces| => TrimSpace(namespaces[i]));
  }
}
