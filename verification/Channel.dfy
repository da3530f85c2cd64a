/** Upgrade channels: entries that replace one another. */
module Channel {
  import opened Wrappers
  import opened Seqs

  datatype Entry = Entry(name: string, supersedes: string)

  function Names(es: seq<Entry>): set<string> { set e | e in es :: e.name }

  function Replaced(es: seq<Entry>): set<string> { set e | e in es && e.supersedes != "" :: e.supersedes }

  /** The names nothing replaces. */
  function Heads(es: seq<Entry>): set<string> { Names(es) - Replaced(es) }

  /** Some name that no entry replaces, whichever the map iteration meets first. */
  method GetChannelHead(entries: seq<Entry>) returns (head: Option<string>)
    ensures head.Some? ==> head.value in Heads(entries)
    ensures head.None? <==> Heads(entries) == {}
  {
    var nameMap: map<string, bool> := map[];
    var replacesMap: map<string, bool> := map[];
    for i := 0 to |entries|
      invariant nameMap.Keys == Names(entries[..i]) && replacesMap.Keys == Replaced(entries[..i])
    {
      assert entries[..i + 1] == entries[..i] + [entries[i]];
      nameMap := nameMap[entries[i].name := true];
      if entries[i].supersedes != "" {
        replacesMap := replacesMap[entries[i].supersedes := true];
      }
    }
    assert entries[..|entries|] == entries;
    var order := RangeOver(nameMap);
    for i := 0 to |order|
      invariant forall j :: 0 <= j < i ==> order[j] in replacesMap
    {
      assert order[i] in order;
      if order[i] !in replacesMap {
        return Some(order[i]);
      }
    }
    head := None;
  }

  // ---- the replaces relation ----

  predicate Edge(es: seq<Entry>, a: string, b: string) { b != "" && Entry(a, b) in es }

  predicate Walk(es: seq<Entry>, p: seq<string>) {
    p != [] && forall i :: 0 <= i < |p| - 1 ==> Edge(es, p[i], p[i + 1])
  }

  ghost predicate Reaches(es: seq<Entry>, a: string, b: string) {
    exists p :: Walk(es, p) && p[0] == a && p[|p| - 1] == b
  }

  ghost predicate Acyclic(es: seq<Entry>) {
    forall p :: Walk(es, p) && |p| >= 2 ==> p[0] != p[|p| - 1]
  }

  lemma {:induction false} Pigeonhole(p: seq<string>, s: set<string>)
    requires (forall i :: 0 <= i < |p| ==> p[i] in s) && |p| > |s|
    ensures exists i, j :: 0 <= i < j < |p| && p[i] == p[j]
    decreases |p|
  {
    var x, rest := p[0], p[1..];
    if x in rest {
      var j :| 0 <= j < |rest| && rest[j] == x;
      assert p[0] == p[j + 1];
    } else {
      Pigeonhole(rest, s - {x});
      var i, j :| 0 <= i < j < |rest| && rest[i] == rest[j];
      assert p[i + 1] == p[j + 1];
    }
  }

  /** Where everything is replaced one can walk backwards for ever. */
  lemma {:induction false} LongWalk(es: seq<Entry>, k: nat) returns (p: seq<string>)
    requires es != [] && Heads(es) == {}
    ensures Walk(es, p) && |p| == k + 1 && forall i :: 0 <= i < |p| ==> p[i] in Names(es)
  {
    if k == 0 {
      assert es[0] in es;
      p := [es[0].name];
    } else {
      var q := LongWalk(es, k - 1);
      assert q[0] in Names(es) && q[0] !in Heads(es);
      var e :| e in es && e.supersedes != "" && e.supersedes == q[0];
      assert Edge(es, e.name, q[0]) by { assert e == Entry(e.name, q[0]); }
      p := [e.name] + q;
    }
  }

  lemma HeadlessHasCycle(es: seq<Entry>)
    requires es != [] && Heads(es) == {}
    ensures !Acyclic(es)
  {
    var p := LongWalk(es, |Names(es)|);
    Pigeonhole(p, Names(es));
    var i, j :| 0 <= i < j < |p| && p[i] == p[j];
    var loop := p[i..j + 1];
    assert Walk(es, loop) && loop[0] == loop[|loop| - 1];
  }

  /** Every non-empty acyclic channel has a head, so head selection fails only on an empty
      channel or on one with a cycle. */
  lemma AcyclicHasHead(es: seq<Entry>)
    requires es != [] && Acyclic(es)
    ensures Heads(es) != {}
  {
    if Heads(es) == {} {
      HeadlessHasCycle(es);
    }
  }

  // ---- upgrading from the head ----

  lemma NamesOfAppended(es: seq<Entry>, e: Entry)
    ensures Names(es + [e]) == Names(es) + {e.name}
    ensures Replaced(es + [e]) == Replaced(es) + if e.supersedes == "" then {} else {e.supersedes}
  {
  }

  /** An upgrade of the only head is the only head afterwards exactly when its name is new to
      the channel's head and not replaced by anything already there. */
  lemma HeadAfterUpgrade(es: seq<Entry>, head: string, name: string)
    requires Heads(es) == {head} && head != ""
    ensures Heads(es + [Entry(name, head)]) == {name} <==> name !in Replaced(es) && name != head
  {
    NamesOfAppended(es, Entry(name, head));
    var after := Heads(es + [Entry(name, head)]);
    assert head in Heads(es);
    assert after == (Heads(es) + ({name} - Replaced(es))) - {head};
    assert name in after <==> name !in Replaced(es) && name != head;
  }

  /** Upgrading one of several heads only replaces that head. */
  lemma HeadsAfterUpgrade(es: seq<Entry>, head: string, name: string)
    requires head in Heads(es) && head != "" && name !in Replaced(es) && name != head
    ensures Heads(es + [Entry(name, head)]) == Heads(es) - {head} + {name}
  {
    NamesOfAppended(es, Entry(name, head));
  }

  lemma ReachesPrepend(es: seq<Entry>, a: string, b: string, c: string)
    requires Edge(es, a, b) && Reaches(es, b, c)
    ensures Reaches(es, a, c)
  {
    var p :| Walk(es, p) && p[0] == b && p[|p| - 1] == c;
    var q := [a] + p;
    assert forall i :: 0 <= i < |q| - 1 ==> Edge(es, q[i], q[i + 1]) by {
      forall i | 0 <= i < |q| - 1 ensures Edge(es, q[i], q[i + 1]) {
        if i > 0 { assert q[i] == p[i - 1] && q[i + 1] == p[i]; }
      }
    }
    assert Walk(es, q) && q[0] == a && q[|q| - 1] == c;
  }

  lemma {:induction false} ReachesTransitive(es: seq<Entry>, p: seq<string>, b: string, c: string)
    requires Walk(es, p) && p[|p| - 1] == b && Reaches(es, b, c)
    ensures Reaches(es, p[0], c)
    decreases |p|
  {
    if |p| > 1 {
      WalkTail(es, p);
      ReachesTransitive(es, p[1..], b, c);
      ReachesPrepend(es, p[0], p[1], c);
    }
  }

  lemma WalkTail(es: seq<Entry>, p: seq<string>)
    requires Walk(es, p) && |p| > 1
    ensures Walk(es, p[1..]) && Edge(es, p[0], p[1])
  {
    var t := p[1..];
    forall i | 0 <= i < |t| - 1 ensures Edge(es, t[i], t[i + 1]) {
      assert t[i] == p[i + 1] && t[i + 1] == p[i + 2];
    }
  }

  lemma Stay(es: seq<Entry>, a: string)
    ensures Reaches(es, a, a)
  {
    assert Walk(es, [a]);
  }

  /** A walk after the upgrade either avoids the new entry, or reaches the new name and goes on
      from the old head. */
  lemma {:induction false} WalkAfterUpgrade(es: seq<Entry>, head: string, name: string, p: seq<string>)
    requires Walk(es + [Entry(name, head)], p)
    ensures Walk(es, p) || (Reaches(es, p[0], name) && Reaches(es, head, p[|p| - 1]))
    decreases |p|
  {
    var es' := es + [Entry(name, head)];
    if |p| > 1 {
      WalkTail(es', p);
      var rest := p[1..];
      WalkAfterUpgrade(es, head, name, rest);
      if Edge(es, p[0], p[1]) {
        if Walk(es, rest) {
          assert forall i :: 1 <= i < |p| - 1 ==> Edge(es, rest[i - 1], rest[i]);
        } else {
          ReachesPrepend(es, p[0], p[1], name);
        }
      } else {
        assert p[0] == name && p[1] == head;
        Stay(es, name);
        if Walk(es, rest) { assert rest[0] == head && rest[|rest| - 1] == p[|p| - 1]; }
      }
    }
  }

  /** The upgrade keeps the channel acyclic exactly when the head does not already lead to the
      new name. */
  lemma AcyclicAfterUpgrade(es: seq<Entry>, head: string, name: string)
    requires Acyclic(es) && head != ""
    ensures Acyclic(es + [Entry(name, head)]) <==> !Reaches(es, head, name)
  {
    var es' := es + [Entry(name, head)];
    if Reaches(es, head, name) {
      var p :| Walk(es, p) && p[0] == head && p[|p| - 1] == name;
      assert Walk(es', p) by {
        assert forall i :: 0 <= i < |p| - 1 ==> Edge(es, p[i], p[i + 1]) && Edge(es', p[i], p[i + 1]);
      }
      assert Entry(name, head) in es';
      var q := [name] + p;
      assert forall i :: 0 <= i < |q| - 1 ==> Edge(es', q[i], q[i + 1]) by {
        forall i | 0 <= i < |q| - 1 ensures Edge(es', q[i], q[i + 1]) {
          if i > 0 { assert q[i] == p[i - 1] && q[i + 1] == p[i]; }
        }
      }
      assert Walk(es', q) && |q| >= 2 && q[0] == q[|q| - 1];
    } else {
      forall p | Walk(es', p) && |p| >= 2 ensures p[0] != p[|p| - 1] {
        WalkAfterUpgrade(es, head, name, p);
        if Reaches(es, head, p[|p| - 1]) && Reaches(es, p[0], name) && p[0] == p[|p| - 1] {
          var q :| Walk(es, q) && q[0] == head && q[|q| - 1] == p[0];
          ReachesTransitive(es, q, p[0], name);
        }
      }
    }
  }

  lemma {:induction false} ReachedIsNamed(es: seq<Entry>, p: seq<string>)
    requires Walk(es, p)
    ensures p[|p| - 1] == p[0] || p[|p| - 1] in Replaced(es)
    decreases |p|
  {
    if |p| > 1 {
      var i := |p| - 2;
      assert Edge(es, p[i], p[i + 1]);
    }
  }

  /** Upgrading again and again: each new name replaces the head before it. */
  function Upgraded(es: seq<Entry>, head: string, names: seq<string>): seq<Entry>
    decreases |names|
  {
    if names == [] then es else Upgraded(es + [Entry(names[0], head)], names[0], names[1..])
  }

  /** Any number of upgrades with fresh names keeps the channel acyclic, and the newest bundle
      is its only head. */
  lemma {:induction false} UpgradesKeepSingleHead(es: seq<Entry>, head: string, names: seq<string>)
    requires Acyclic(es) && Heads(es) == {head} && head != "" && FreshNames(es, names)
    ensures Acyclic(Upgraded(es, head, names))
    ensures Heads(Upgraded(es, head, names)) == {if names == [] then head else names[|names| - 1]}
    decreases |names|
  {
    if names != [] {
      var n, later := names[0], names[1..];
      var next := es + [Entry(n, head)];
      assert n in names && head in Heads(es);
      AcyclicAfterUpgrade(es, head, n);
      if Reaches(es, head, n) {
        var p :| Walk(es, p) && p[0] == head && p[|p| - 1] == n;
        ReachedIsNamed(es, p);
      }
      FreshAfterUpgrade(es, head, names);
      UpgradesKeepSingleHead(next, n, later);
    }
  }

  // ---- upgrading an operator installed from an index ----

  datatype ChannelBlob = ChannelBlob(name: string, pkg: string, entries: seq<Entry>)

  predicate IsChannel(c: ChannelBlob, name: string, pkg: string) { c.name == name && c.pkg == pkg }

  /** The first channel of that name and package, or the number of channels. */
  function ChannelIndex(cs: seq<ChannelBlob>, name: string, pkg: string): (i: nat)
    ensures i <= |cs|
  {
    if cs == [] || IsChannel(cs[0], name, pkg) then 0 else 1 + ChannelIndex(cs[1..], name, pkg)
  }

  function WithEntry(cs: seq<ChannelBlob>, i: nat, e: Entry): seq<ChannelBlob>
    requires i < |cs|
  {
    cs[i := cs[i].(entries := cs[i].entries + [e])]
  }

  /** The first matching channel gets the bundle as an entry that replaces one of its heads;
      there is no result exactly when that channel has none. */
  ghost predicate UpgradesTo(channels: seq<ChannelBlob>, channelName: string, bundleName: string, bundlePackage: string,
                             upgraded: Option<seq<ChannelBlob>>)
  {
    var i := ChannelIndex(channels, channelName, bundlePackage);
    if i == |channels| then upgraded == Some(channels)
    else if Heads(channels[i].entries) == {} then upgraded.None?
    else exists head ::
      head in Heads(channels[i].entries) && upgraded == Some(WithEntry(channels, i, Entry(bundleName, head)))
  }

  method HandleTraditionalUpgrade(channels: seq<ChannelBlob>, channelName: string, bundleName: string,
                                  bundlePackage: string)
    returns (upgraded: Option<seq<ChannelBlob>>)
    ensures UpgradesTo(channels, channelName, bundleName, bundlePackage, upgraded)
  {
    var i := 0;
    ghost var rest := channels;
    while i < |channels|
      invariant 0 <= i <= |channels| && rest == channels[i..]
      invariant ChannelIndex(channels, channelName, bundlePackage) == i + ChannelIndex(rest, channelName, bundlePackage)
    {
      if IsChannel(channels[i], channelName, bundlePackage) {
        var head := GetChannelHead(channels[i].entries);
        if head.None? {
          return None;
        }
        return Some(WithEntry(channels, i, Entry(bundleName, head.value)));
      }
      rest := rest[1..];
      i := i + 1;
    }
    upgraded := Some(channels);
  }

  /** `css` are the catalogs along successful upgrades of one channel with these bundles. */
  ghost predicate UpgradeRun(css: seq<seq<ChannelBlob>>, channelName: string, names: seq<string>, pkg: string)
    decreases |names|
  {
    && |css| == |names| + 1
    && (names != [] ==>
          UpgradesTo(css[0], channelName, names[0], pkg, Some(css[1]))
            && UpgradeRun(css[1..], channelName, names[1..], pkg))
  }

  /** Distinct real names that the entries do not mention. */
  ghost predicate FreshNames(es: seq<Entry>, names: seq<string>) {
    NoDuplicates(names) && forall n :: n in names ==> n != "" && n !in Names(es) && n !in Replaced(es)
  }

  lemma {:induction false} FreshAfterUpgrade(es: seq<Entry>, head: string, names: seq<string>)
    requires names != [] && FreshNames(es, names) && Heads(es) == {head} && head != ""
    ensures var es' := es + [Entry(names[0], head)];
            FreshNames(es', names[1..]) && Heads(es') == {names[0]} && names[0] != ""
  {
    var n, later := names[0], names[1..];
    assert n in names && head in Heads(es);
    HeadAfterUpgrade(es, head, n);
    NamesOfAppended(es, Entry(n, head));
    HeadOfDistinct(names);
    assert names == [n] + later;
    forall m | m in later
      ensures m != "" && m !in Names(es + [Entry(n, head)]) && m !in Replaced(es + [Entry(n, head)])
    {
      assert m in names && m != n && head in Names(es);
    }
  }

  lemma {:induction false} WithEntryFinds(cs: seq<ChannelBlob>, channelName: string, pkg: string, e: Entry)
    requires ChannelIndex(cs, channelName, pkg) < |cs|
    ensures ChannelIndex(WithEntry(cs, ChannelIndex(cs, channelName, pkg), e), channelName, pkg)
            == ChannelIndex(cs, channelName, pkg)
  {
    if !IsChannel(cs[0], channelName, pkg) {
      var i := ChannelIndex(cs[1..], channelName, pkg);
      WithEntryFinds(cs[1..], channelName, pkg, e);
      assert WithEntry(cs, i + 1, e)[1..] == WithEntry(cs[1..], i, e);
    }
  }

  function WithEntries(cs: seq<ChannelBlob>, i: nat, es: seq<Entry>): seq<ChannelBlob>
    requires i < |cs|
  {
    cs[i := cs[i].(entries := es)]
  }

  /** Upgrading a channel with one head again and again with fresh names: whichever heads are
      met, the channel ends up with the entries of the repeated upgrade, and nothing else of the
      catalog changes. */
  lemma {:induction false} UpgradeRunGives(css: seq<seq<ChannelBlob>>, channelName: string, names: seq<string>,
                                           pkg: string, head: string)
    requires UpgradeRun(css, channelName, names, pkg)
    requires var i := ChannelIndex(css[0], channelName, pkg);
             i < |css[0]| && Heads(css[0][i].entries) == {head} && head != "" && FreshNames(css[0][i].entries, names)
    ensures var i := ChannelIndex(css[0], channelName, pkg);
            css[|names|] == WithEntries(css[0], i, Upgraded(css[0][i].entries, head, names))
    decreases |names|
  {
    var cs, i := css[0], ChannelIndex(css[0], channelName, pkg);
    var es := cs[i].entries;
    if names == [] {
      assert WithEntries(cs, i, es) == cs;
    } else {
      var e := Entry(names[0], head);
      OneUpgrade(cs, channelName, names[0], pkg, head, css[1]);
      WithEntryFinds(cs, channelName, pkg, e);
      FreshAfterUpgrade(es, head, names);
      UpgradeRunGives(css[1..], channelName, names[1..], pkg, names[0]);
      assert css[1..][|names| - 1] == css[|names|];
    }
  }

  lemma {:induction false} OneUpgrade(cs: seq<ChannelBlob>, channelName: string, name: string, pkg: string,
                                      head: string, next: seq<ChannelBlob>)
    requires UpgradesTo(cs, channelName, name, pkg, Some(next))
    requires var i := ChannelIndex(cs, channelName, pkg); i < |cs| && Heads(cs[i].entries) == {head}
    ensures next == WithEntry(cs, ChannelIndex(cs, channelName, pkg), Entry(name, head))
  {
    assert head in Heads(cs[ChannelIndex(cs, channelName, pkg)].entries);
  }

  // ---- a channel regenerated from a list of bundles ----

  function ChainEntry(bundles: seq<string>, i: nat): Entry
    requires i < |bundles|
  {
    Entry(bundles[i], if i > 0 then bundles[i - 1] else "")
  }

  function Chain(bundles: seq<string>): (es: seq<Entry>)
    ensures |es| == |bundles|
  {
    seq(|bundles|, i requires 0 <= i < |bundles| => ChainEntry(bundles, i))
  }

  /** The entries of a channel that is not in the index yet. */
  method NewChannelEntries(bundles: seq<string>) returns (entries: seq<Entry>)
    ensures entries == Chain(bundles)
  {
    entries := [];
    for i := 0 to |bundles|
      invariant entries == Chain(bundles)[..i]
    {
      var entry := Entry(bundles[i], "");
      if i > 0 {
        entry := entry.(supersedes := bundles[i - 1]);
      }
      entries := entries + [entry];
    }
  }

  ghost predicate RealNames(bundles: seq<string>) { forall i :: 0 <= i < |bundles| ==> bundles[i] != "" }

  /** The newest bundle is the only head of the chain exactly when it occurs only once. */
  lemma ChainHead(bundles: seq<string>)
    requires bundles != [] && RealNames(bundles)
    ensures var last := |bundles| - 1;
            Heads(Chain(bundles)) == {bundles[last]} <==> bundles[last] !in bundles[..last]
  {
    var last := |bundles| - 1;
    var es := Chain(bundles);
    forall x ensures x in Names(es) <==> x in bundles {
      if x in bundles {
        var i :| 0 <= i < |bundles| && bundles[i] == x;
        assert es[i] in es && es[i].name == x;
      }
    }
    forall x ensures x in Replaced(es) <==> x in bundles[..last] {
      if x in bundles[..last] {
        var i :| 0 <= i < last && bundles[i] == x;
        assert es[i + 1] in es && es[i + 1].supersedes == x;
      }
      if x in Replaced(es) {
        var e :| e in es && e.supersedes == x && x != "";
        var i :| 0 <= i < |es| && es[i] == e;
        assert bundles[..last][i - 1] == x;
      }
    }
    assert forall x :: x in bundles <==> x in bundles[..last] || x == bundles[last] by {
      assert bundles == bundles[..last] + [bundles[last]];
    }
  }

  lemma ChainEdge(bundles: seq<string>, a: string, b: string) returns (i: nat)
    requires Edge(Chain(bundles), a, b)
    ensures 0 < i < |bundles| && bundles[i] == a && bundles[i - 1] == b
  {
    i :| 0 <= i < |bundles| && Chain(bundles)[i] == Entry(a, b);
  }

  /** Walks go down the chain. */
  lemma {:induction false} ChainWalkDescends(bundles: seq<string>, p: seq<string>, i: nat) returns (j: nat)
    requires NoDuplicates(bundles) && Walk(Chain(bundles), p) && i < |bundles| && bundles[i] == p[0]
    ensures j < |bundles| && bundles[j] == p[|p| - 1] && j + |p| - 1 == i
    decreases |p|
  {
    if |p| == 1 {
      j := i;
    } else {
      WalkTail(Chain(bundles), p);
      var k := ChainEdge(bundles, p[0], p[1]);
      assert k == i;
      j := ChainWalkDescends(bundles, p[1..], i - 1);
    }
  }

  /** The chain is acyclic exactly when no bundle occurs twice. */
  lemma ChainAcyclic(bundles: seq<string>)
    requires RealNames(bundles)
    ensures Acyclic(Chain(bundles)) <==> NoDuplicates(bundles)
  {
    var es := Chain(bundles);
    if NoDuplicates(bundles) {
      forall p | Walk(es, p) && |p| >= 2 ensures p[0] != p[|p| - 1] {
        WalkTail(es, p);
        var i := ChainEdge(bundles, p[0], p[1]);
        var j := ChainWalkDescends(bundles, p, i);
      }
    } else {
      var i, j :| 0 <= i < j < |bundles| && bundles[i] == bundles[j];
      var p := seq(j - i + 1, k requires 0 <= k < j - i + 1 => bundles[j - k]);
      forall k | 0 <= k < |p| - 1 ensures Edge(es, p[k], p[k + 1]) {
        assert es[j - k] in es;
      }
      assert Walk(es, p) && p[0] == p[|p| - 1];
    }
  }

  // ---- a channel for bundles that may already be in the index ----

  datatype FBCUpgrade =
    | NewChannel(entries: seq<Entry>)
    | OldChannel(channel: ChannelBlob)
    | NoBundle
    | BundleExists
    | NoHead
    | IndexOutOfRange

  /** What the upgraded catalog has for the channel. A channel of the index is copied alone into
      the new catalog, but looked for there at its position in the index; and each bundle's
      entry takes the place of all entries before it. */
  ghost predicate FBCUpgradesTo(channels: seq<ChannelBlob>, channelName: string, pkg: string, bundles: seq<string>,
                                r: FBCUpgrade)
  {
    var i := ChannelIndex(channels, channelName, pkg);
    var last := |bundles| - 1;
    if bundles == [] then r == NoBundle
    else if i == |channels| then r == NewChannel(Chain(bundles))
    else if bundles[last] in Names(channels[i].entries) then r == BundleExists
    else if Heads(channels[i].entries) == {} then r == NoHead
    else if i > 0 then r == IndexOutOfRange
    else exists head ::
      && head in Heads(channels[0].entries)
      && r == OldChannel(channels[0].(entries := [LinkedEntry(bundles, last, head)]))
  }

  method FindName(entries: seq<Entry>, name: string) returns (found: bool)
    ensures found <==> name in Names(entries)
  {
    for i := 0 to |entries|
      invariant forall j :: 0 <= j < i ==> entries[j].name != name
    {
      if entries[i].name == name {
        assert entries[i] in entries;
        return true;
      }
    }
    found := false;
  }

  method UpgradeFBC(channels: seq<ChannelBlob>, channelName: string, pkg: string, bundles: seq<string>)
    returns (r: FBCUpgrade)
    ensures FBCUpgradesTo(channels, channelName, pkg, bundles, r)
  {
    if |bundles| < 1 {
      return NoBundle;
    }
    var extra: seq<ChannelBlob> := [];
    var head: Option<string> := None;
    var channelIndex := 0;
    ghost var rest := channels;
    while channelIndex < |channels| && !IsChannel(channels[channelIndex], channelName, pkg)
      invariant 0 <= channelIndex <= |channels| && rest == channels[channelIndex..]
      invariant ChannelIndex(channels, channelName, pkg) == channelIndex + ChannelIndex(rest, channelName, pkg)
    {
      rest := rest[1..];
      channelIndex := channelIndex + 1;
    }
    if channelIndex < |channels| {
      var channel := channels[channelIndex];
      var present := FindName(channel.entries, bundles[|bundles| - 1]);
      if present {
        return BundleExists;
      }
      head := GetChannelHead(channel.entries);
      if head.None? {
        return NoHead;
      }
      extra := [channel];
    }
    var entries := [];
    for i := 0 to |bundles|
      invariant head.None? ==> entries == Chain(bundles)[..i]
      invariant head.Some? ==> |extra| == 1 && (i > 0 ==> channelIndex == 0)
      invariant head.Some? && i == 0 ==> extra[0] == channels[channelIndex]
      invariant head.Some? && i > 0 ==>
                  extra[0] == channels[channelIndex].(entries := [LinkedEntry(bundles, i - 1, head.value)])
    {
      var entry := Entry(bundles[i], if i > 0 then bundles[i - 1] else if head.Some? then head.value else "");
      if head.Some? {
        if channelIndex >= |extra| {
          return IndexOutOfRange;
        }
        extra := extra[channelIndex := extra[channelIndex].(entries := [entry])];
      } else {
        entries := entries + [entry];
      }
    }
    r := if head.Some? then OldChannel(extra[0]) else NewChannel(entries);
  }

  function LinkedEntry(bundles: seq<string>, i: nat, head: string): Entry
    requires i < |bundles|
  {
    Entry(bundles[i], if i > 0 then bundles[i - 1] else head)
  }

  /** Upgrading a channel of the index succeeds only if it is the first one, and the channel is
      then left with a single entry that none of the old ones is; its newest bundle is its only
      head unless that bundle is listed twice in a row. */
  lemma {:induction false} OldChannelUpgrade(channels: seq<ChannelBlob>, channelName: string, pkg: string,
                                             bundles: seq<string>, r: FBCUpgrade)
    requires FBCUpgradesTo(channels, channelName, pkg, bundles, r) && r.OldChannel? && RealNames(bundles)
    ensures channels != [] && IsChannel(channels[0], channelName, pkg)
    ensures var es, last := r.channel.entries, bundles[|bundles| - 1];
            && Names(es) == {last}
            && (forall e :: e in channels[0].entries ==> e !in es)
            && (Heads(es) == {last} <==> |bundles| == 1 || bundles[|bundles| - 2] != last)
  {
    var last := |bundles| - 1;
    var head :| head in Heads(channels[0].entries)
                && r == OldChannel(channels[0].(entries := [LinkedEntry(bundles, last, head)]));
    var e := r.channel.entries[0];
    assert r.channel.entries == [e] && e in r.channel.entries;
    assert Replaced([e]) == if e.supersedes == "" then {} else {e.supersedes};
  }

  /** The channel of the index loses its entry "a". */
  lemma {:induction false} OldEntryDropped(r: FBCUpgrade)
    requires FBCUpgradesTo([ChannelBlob("c", "p", [Entry("a", "")])], "c", "p", ["b"], r)
    ensures r == OldChannel(ChannelBlob("c", "p", [Entry("b", "a")]))
  {
    var es := [Entry("a", "")];
    assert Names(es) == {"a"} && Replaced(es) == {} && Heads(es) == {"a"};
    assert "b" != "a";
  }

  /** The same channel in the second place of the index. */
  lemma {:induction false} SecondChannelFails(r: FBCUpgrade)
    requires FBCUpgradesTo([ChannelBlob("x", "p", []), ChannelBlob("c", "p", [Entry("a", "")])], "c", "p", ["b"], r)
    ensures r == IndexOutOfRange
  {
    var cs := [ChannelBlob("x", "p", []), ChannelBlob("c", "p", [Entry("a", "")])];
    var es := cs[1].entries;
    assert "x"[0] != "c"[0] && cs[1..][0] == cs[1];
    assert ChannelIndex(cs[1..], "c", "p") == 0 && ChannelIndex(cs, "c", "p") == 1;
    assert Names(es) == {"a"} && Replaced(es) == {} && Heads(es) == {"a"};
    assert "b" != "a";
  }

  // ---- channels and heads in terms of their entries ----

  /** The name occurs and no entry replaces it. */
  ghost predicate IsHead(es: seq<Entry>, name: string) {
    && (exists i :: 0 <= i < |es| && es[i].name == name)
    && (name == "" || forall i :: 0 <= i < |es| ==> es[i].supersedes != name)
  }

  lemma HeadsIff(es: seq<Entry>, name: string)
    ensures name in Heads(es) <==> IsHead(es, name)
  {
    if i :| 0 <= i < |es| && es[i].name == name { assert es[i] in es; }
    if i :| 0 <= i < |es| && es[i].supersedes == name { assert es[i] in es; }
  }

  lemma {:induction false} FirstMatch(cs: seq<ChannelBlob>, name: string, pkg: string)
    ensures var i := ChannelIndex(cs, name, pkg);
            && (forall j :: 0 <= j < i ==> cs[j].name != name || cs[j].pkg != pkg)
            && (i < |cs| ==> cs[i].name == name && cs[i].pkg == pkg)
  {
    if cs != [] && !(cs[0].name == name && cs[0].pkg == pkg) {
      FirstMatch(cs[1..], name, pkg);
      assert forall j :: 1 <= j < |cs| ==> cs[j] == cs[1..][j - 1];
    }
  }

  /** A catalog that was upgraded differs from the one before in at most one channel: the first
      with the name and the package, which has one more entry, for the bundle, that replaces a
      head; if there is no such channel nothing is changed. */
  lemma {:induction false} UpgradeChanges(cs: seq<ChannelBlob>, channelName: string, bundle: string, pkg: string,
                                          upgraded: seq<ChannelBlob>, i: nat)
    requires UpgradesTo(cs, channelName, bundle, pkg, Some(upgraded)) && i < |cs|
    ensures |upgraded| == |cs| && upgraded[i].name == cs[i].name && upgraded[i].pkg == cs[i].pkg
    ensures var first := cs[i].name == channelName && cs[i].pkg == pkg
                         && forall j :: 0 <= j < i ==> cs[j].name != channelName || cs[j].pkg != pkg;
            if first then exists head :: IsHead(cs[i].entries, head)
                                         && upgraded[i].entries == cs[i].entries + [Entry(bundle, head)]
            else upgraded[i] == cs[i]
  {
    FirstMatch(cs, channelName, pkg);
    var k := ChannelIndex(cs, channelName, pkg);
    if k == i {
      var head :| head in Heads(cs[i].entries) && Some(upgraded) == Some(WithEntry(cs, i, Entry(bundle, head)));
      HeadsIff(cs[i].entries, head);
    }
  }

  /** The upgrade fails exactly if the first such channel has no head. */
  lemma {:induction false} UpgradeFailsIff(cs: seq<ChannelBlob>, channelName: string, bundle: string, pkg: string,
                                           upgraded: Option<seq<ChannelBlob>>)
    requires UpgradesTo(cs, channelName, bundle, pkg, upgraded)
    ensures upgraded == None <==> exists i ::
              && 0 <= i < |cs| && cs[i].name == channelName && cs[i].pkg == pkg
              && (forall j :: 0 <= j < i ==> cs[j].name != channelName || cs[j].pkg != pkg)
              && forall n :: !IsHead(cs[i].entries, n)
  {
    FirstMatch(cs, channelName, pkg);
    var k := ChannelIndex(cs, channelName, pkg);
    if k < |cs| {
      forall n ensures n in Heads(cs[k].entries) <==> IsHead(cs[k].entries, n) { HeadsIff(cs[k].entries, n); }
    }
  }

  /** Where the channel is in the index, if anywhere. */
  ghost predicate IsFirst(cs: seq<ChannelBlob>, name: string, pkg: string, i: nat) {
    && i < |cs| && cs[i].name == name && cs[i].pkg == pkg
    && forall j :: 0 <= j < i ==> cs[j].name != name || cs[j].pkg != pkg
  }

  ghost predicate HasEntry(es: seq<Entry>, name: string) { exists i :: 0 <= i < |es| && es[i].name == name }

  /** Upgrading an index in which no such channel is gives a new one: the chain of the bundles. */
  lemma {:induction false} NewChannelIs(cs: seq<ChannelBlob>, name: string, pkg: string, bundles: seq<string>,
                                        r: FBCUpgrade)
    requires FBCUpgradesTo(cs, name, pkg, bundles, r)
    ensures bundles == [] ==> r == NoBundle
    ensures bundles != [] && (forall i :: 0 <= i < |cs| ==> cs[i].name != name || cs[i].pkg != pkg) ==>
              && r.NewChannel? && |r.entries| == |bundles|
              && forall i :: 0 <= i < |bundles| ==>
                r.entries[i] == Entry(bundles[i], if i == 0 then "" else bundles[i - 1])
  {
    FirstMatch(cs, name, pkg);
    forall i | 0 <= i < |bundles|
      ensures Chain(bundles)[i] == Entry(bundles[i], if i == 0 then "" else bundles[i - 1])
    {
    }
  }

  /** Upgrading an index in which the channel is: the outcomes in the order in which they are
      looked for. */
  lemma {:induction false} OldChannelIs(cs: seq<ChannelBlob>, name: string, pkg: string, bundles: seq<string>,
                                        r: FBCUpgrade,
                                        i: nat)
    requires FBCUpgradesTo(cs, name, pkg, bundles, r) && IsFirst(cs, name, pkg, i) && bundles != []
    ensures var last := bundles[|bundles| - 1];
            if HasEntry(cs[i].entries, last) then r == BundleExists
            else if forall n :: !IsHead(cs[i].entries, n) then r == NoHead
            else if i > 0 then r == IndexOutOfRange
            else
              exists head ::
                && IsHead(cs[0].entries, head)
                && r == OldChannel(ChannelBlob(cs[0].name, cs[0].pkg,
                                               [Entry(last, if |bundles| > 1 then bundles[|bundles| - 2] else head)]))
  {
    var es, last := cs[i].entries, bundles[|bundles| - 1];
    FirstMatch(cs, name, pkg);
    assert ChannelIndex(cs, name, pkg) == i;
    forall n ensures n in Heads(es) <==> IsHead(es, n) { HeadsIff(es, n); }
    if k :| 0 <= k < |es| && es[k].name == last { assert es[k] in es; }
    if last !in Names(es) && Heads(es) != {} && i == 0 {
      var head :| head in Heads(es) && r == OldChannel(cs[0].(entries := [LinkedEntry(bundles, |bundles| - 1, head)]));
      assert IsHead(es, head);
    }
  }
}
