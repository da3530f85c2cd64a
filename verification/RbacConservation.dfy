/** Nothing is lost and nothing is duplicated when RBAC manifests are split. */
module RbacConservation {
  import opened Seqs
  import opened Collector

  ghost predicate UniqueNames<T>(xs: seq<T>, name: T -> string) {
    forall i, j :: 0 <= i < j < |xs| ==> name(xs[i]) != name(xs[j])
  }

  /** An index entry is stored under its own name. */
  lemma {:induction false} IndexedUnderName<T>(xs: seq<T>, name: T -> string)
    ensures forall k :: k in LastNamed(xs, name) ==> name(LastNamed(xs, name)[k]) == k && LastNamed(xs, name)[k] in xs
  {
    if xs != [] {
      IndexedUnderName(xs[..|xs| - 1], name);
    }
  }

  lemma {:induction false} IndexFinds<T>(xs: seq<T>, name: T -> string, x: T)
    requires UniqueNames(xs, name) && x in xs
    ensures name(x) in LastNamed(xs, name) && LastNamed(xs, name)[name(x)] == x
  {
    var last := |xs| - 1;
    if x != xs[last] {
      assert xs == xs[..last] + [xs[last]];
      IndexFinds(xs[..last], name, x);
      var i :| 0 <= i < |xs| && xs[i] == x;
      assert name(xs[i]) != name(xs[last]);
    }
  }

  lemma {:induction false} BoundNamesMember(bs: seq<Binding>, kind: Kind, names: set<string>, accounts: set<string>,
                                            n: string)
    ensures n in BoundNames(bs, kind, names, accounts)
        <==> exists b :: b in bs && Binds(b, kind, names, accounts) && b.roleRef.name == n
  {
    if bs != [] {
      assert bs == [bs[0]] + bs[1..];
      BoundNamesMember(bs[1..], kind, names, accounts, n);
    }
  }

  lemma {:induction false} TakeRolesCount(names: seq<string>, m: map<string, Role>, r: Role)
    requires forall k :: k in m ==> m[k].name == k
    ensures multiset(TakeRoles(names, m))[RoleObj(r)]
            == if r.name in names && r.name in m && m[r.name] == r then 1 else 0
  {
    if names != [] {
      assert names == [names[0]] + names[1..];
      TakeRolesCount(names[1..], m - {names[0]}, r);
    }
  }

  lemma {:induction false} ForeignAccountsMember(accounts: seq<string>, csv: set<string>, o: Object)
    ensures o in ForeignAccounts(accounts, csv) <==> o.ServiceAccountObj? && o.name in accounts && o.name !in csv
  {
    if accounts != [] {
      assert accounts == [accounts[0]] + accounts[1..];
      ForeignAccountsMember(accounts[1..], csv, o);
    }
  }

  lemma {:induction false} UnabsorbedMember(bs: seq<Binding>, kind: Kind, names: set<string>, accounts: set<string>)
    ensures forall b :: b in Unabsorbed(bs, kind, names, accounts) <==> b in bs && !Absorbed(b, kind, names, accounts)
    ensures UniqueNames(bs, BindingName) ==> UniqueNames(Unabsorbed(bs, kind, names, accounts), BindingName)
  {
    if bs != [] {
      assert bs == [bs[0]] + bs[1..];
      UnabsorbedMember(bs[1..], kind, names, accounts);
      if UniqueNames(bs, BindingName) {
        var rest := Unabsorbed(bs[1..], kind, names, accounts);
        forall b | b in rest ensures BindingName(b) != BindingName(bs[0]) {
          var i :| 0 <= i < |bs[1..]| && bs[1..][i] == b;
          assert bs[i + 1] == b;
        }
      }
    }
  }

  /** How often an object occurs among the selected entries of a well-named index. */
  lemma CountOfOne(s: seq<Object>, i: nat)
    requires i < |s| && forall j :: 0 <= j < |s| ==> (s[j] == s[i] <==> j == i)
    ensures multiset(s)[s[i]] == 1
  {
    assert s == s[..i] + [s[i]] + s[i + 1..];
    assert s[i] !in s[..i] && s[i] !in s[i + 1..];
  }

  lemma SelectCount<T>(m: map<string, T>, at: (map<string, T>, string) -> Object, keys: seq<string>, k: string,
                       x: Object)
    requires NoDuplicates(keys) && forall i :: 0 <= i < |keys| ==> (at(m, keys[i]) == x <==> keys[i] == k)
    ensures multiset(Select(m, at, keys))[x] == if k in keys then 1 else 0
  {
    var s := Select(m, at, keys);
    if k in keys {
      var i :| 0 <= i < |keys| && keys[i] == k;
      assert forall j :: 0 <= j < |s| ==> (s[j] == x <==> j == i);
      CountOfOne(s, i);
    } else {
      assert x !in s;
    }
  }

  lemma SelectNone<T>(m: map<string, T>, at: (map<string, T>, string) -> Object, keys: seq<string>, x: Object)
    requires forall k :: at(m, k) != x
    ensures multiset(Select(m, at, keys))[x] == 0
  {
    assert x !in Select(m, at, keys);
  }

  /** Every Role occurs exactly once in the two role lists together, and among the CSV
      permissions exactly when some role binding gives it to a CSV account. */
  lemma {:induction false} RoleConserved(m: Manifests, extraSAs: seq<string>, s: Split, order: seq<string>,
                                         clusterOrder: seq<string>, r: Role)
    requires IsSplit(m, extraSAs, s, order, clusterOrder)
    requires UniqueNames(m.roles, RoleName) && r in m.roles
    ensures multiset(s.inPerms)[RoleObj(r)] + multiset(s.out)[RoleObj(r)] == 1
    ensures RoleObj(r) in s.inPerms <==> exists b ::
              b in m.roleBindings && Binds(b, RoleKind, Names(m.roles), CsvAccounts(m, extraSAs))
                && b.roleRef.name == r.name
    ensures RoleObj(r) !in s.inCPerms
  {
    var roles, clusterRoles := LastNamed(m.roles, RoleName), LastNamed(m.clusterRoles, RoleName);
    var bound := BoundRoles(m, extraSAs);
    var x := RoleObj(r);
    IndexedUnderName(m.roles, RoleName);
    assert forall k :: k in roles ==> roles[k].name == k by { assert forall q :: RoleName(q) == q.name; }
    IndexFinds(m.roles, RoleName, r);
    assert RoleName(r) == r.name;
    TakeRolesCount(bound, roles, r);
    BoundNamesMember(m.roleBindings, RoleKind, Names(m.roles), CsvAccounts(m, extraSAs), r.name);
    SelectNone(clusterRoles, ClusterRoleAt, BoundClusterRoles(m, extraSAs), x);
    SelectNone(clusterRoles, ClusterRoleAt, ClusterBoundRoles(m, extraSAs), x);
    SelectCount(roles, RoleAt, order, r.name, x);
    SelectNone(clusterRoles, ClusterRoleAt, clusterOrder, x);
    OutTail(m, extraSAs, x);
  }

  /** Roles never occur in the part of `out` made of bindings and accounts. */
  lemma OutTail(m: Manifests, extraSAs: seq<string>, x: Object)
    requires x.RoleObj? || x.ClusterRoleObj?
    ensures multiset(Select(LastNamed(m.roleBindings, BindingName), RoleBindingAt,
                            NamesOf(KeptRoleBindings(m, extraSAs))))[x] == 0
    ensures multiset(Select(LastNamed(m.clusterRoleBindings, BindingName), ClusterRoleBindingAt,
                            NamesOf(KeptClusterRoleBindings(m, extraSAs))))[x] == 0
    ensures multiset(ForeignAccounts(m.serviceAccounts, CsvAccounts(m, extraSAs)))[x] == 0
  {
    SelectNone(LastNamed(m.roleBindings, BindingName), RoleBindingAt, NamesOf(KeptRoleBindings(m, extraSAs)), x);
    SelectNone(LastNamed(m.clusterRoleBindings, BindingName), ClusterRoleBindingAt,
               NamesOf(KeptClusterRoleBindings(m, extraSAs)), x);
    ForeignAccountsMember(m.serviceAccounts, CsvAccounts(m, extraSAs), x);
  }

  lemma SelectMember(clusterRoles: seq<Role>, keys: seq<string>, r: Role)
    requires UniqueNames(clusterRoles, RoleName) && r in clusterRoles
    ensures ClusterRoleObj(r) in Select(LastNamed(clusterRoles, RoleName), ClusterRoleAt, keys) <==> r.name in keys
  {
    var m := LastNamed(clusterRoles, RoleName);
    IndexedUnderName(clusterRoles, RoleName);
    assert forall q :: RoleName(q) == q.name;
    IndexFinds(clusterRoles, RoleName, r);
    var s := Select(m, ClusterRoleAt, keys);
    assert forall i :: 0 <= i < |keys| ==> s[i] == ClusterRoleAt(m, keys[i]);
    if r.name in keys {
      var i :| 0 <= i < |keys| && keys[i] == r.name;
      assert s[i] == ClusterRoleObj(r);
    }
  }

  lemma {:induction false} TakeRolesHasNoClusterRole(names: seq<string>, m: map<string, Role>, r: Role)
    ensures ClusterRoleObj(r) !in TakeRoles(names, m)
  {
    if names != [] {
      TakeRolesHasNoClusterRole(names[1..], m - {names[0]}, r);
    }
  }

  /** A ClusterRole is among the permissions of a scope exactly when a binding of that scope
      gives it to a CSV account, and it is written next to the CSV, once, exactly when it is
      in neither permission list. */
  lemma ClusterRoleConserved(m: Manifests, extraSAs: seq<string>, s: Split, order: seq<string>,
                             clusterOrder: seq<string>, r: Role)
    requires IsSplit(m, extraSAs, s, order, clusterOrder)
    requires UniqueNames(m.clusterRoles, RoleName) && r in m.clusterRoles
    ensures ClusterRoleObj(r) in s.inPerms <==> exists b ::
              b in m.roleBindings && Binds(b, ClusterRoleKind, Names(m.clusterRoles), CsvAccounts(m, extraSAs))
                && b.roleRef.name == r.name
    ensures ClusterRoleObj(r) in s.inCPerms <==> exists b ::
              b in m.clusterRoleBindings && Binds(b, ClusterRoleKind, Names(m.clusterRoles), CsvAccounts(m, extraSAs))
                && b.roleRef.name == r.name
    ensures multiset(s.out)[ClusterRoleObj(r)]
            == if ClusterRoleObj(r) in s.inPerms || ClusterRoleObj(r) in s.inCPerms then 0 else 1
  {
    var roles, clusterRoles := LastNamed(m.roles, RoleName), LastNamed(m.clusterRoles, RoleName);
    var names, accounts := Names(m.clusterRoles), CsvAccounts(m, extraSAs);
    var x := ClusterRoleObj(r);
    SelectMember(m.clusterRoles, BoundClusterRoles(m, extraSAs), r);
    SelectMember(m.clusterRoles, ClusterBoundRoles(m, extraSAs), r);
    BoundNamesMember(m.roleBindings, ClusterRoleKind, names, accounts, r.name);
    BoundNamesMember(m.clusterRoleBindings, ClusterRoleKind, names, accounts, r.name);
    TakeRolesHasNoClusterRole(BoundRoles(m, extraSAs), roles, r);
    ClusterRolesWrittenOut(m, extraSAs, clusterOrder, r);
    SelectNone(roles, RoleAt, order, x);
    OutTail(m, extraSAs, x);
  }

  lemma ClusterRolesWrittenOut(m: Manifests, extraSAs: seq<string>, clusterOrder: seq<string>, r: Role)
    requires UniqueNames(m.clusterRoles, RoleName) && r in m.clusterRoles
    requires IsOrder(clusterOrder, LastNamed(m.clusterRoles, RoleName).Keys
                                   - Elements(BoundClusterRoles(m, extraSAs) + ClusterBoundRoles(m, extraSAs)))
    ensures multiset(Select(LastNamed(m.clusterRoles, RoleName), ClusterRoleAt, clusterOrder))[ClusterRoleObj(r)]
            == if r.name in BoundClusterRoles(m, extraSAs) || r.name in ClusterBoundRoles(m, extraSAs) then 0 else 1
  {
    var clusterRoles := LastNamed(m.clusterRoles, RoleName);
    IndexedUnderName(m.clusterRoles, RoleName);
    assert forall q :: RoleName(q) == q.name;
    IndexFinds(m.clusterRoles, RoleName, r);
    SelectCount(clusterRoles, ClusterRoleAt, clusterOrder, r.name, ClusterRoleObj(r));
  }

  lemma NamesWithoutDuplicates(bs: seq<Binding>)
    requires UniqueNames(bs, BindingName)
    ensures NoDuplicates(NamesOf(bs))
  {
    forall i, j | 0 <= i < j < |bs| ensures NamesOf(bs)[i] != NamesOf(bs)[j] {
      assert BindingName(bs[i]) != BindingName(bs[j]);
    }
  }

  /** A list of bindings that is part of the collected ones is written out binding by binding. */
  lemma BindingsWrittenOut(bs: seq<Binding>, kept: seq<Binding>, at: (map<string, Binding>, string) -> Object,
                           b: Binding, x: Object)
    requires UniqueNames(bs, BindingName) && UniqueNames(kept, BindingName) && b in bs
    requires forall k :: k in kept ==> k in bs
    requires forall k :: at(LastNamed(bs, BindingName), k) == x
                    <==> k in LastNamed(bs, BindingName) && LastNamed(bs, BindingName)[k] == b
    ensures multiset(Select(LastNamed(bs, BindingName), at, NamesOf(kept)))[x] == if b in kept then 1 else 0
  {
    var m := LastNamed(bs, BindingName);
    var keys := NamesOf(kept);
    NamesWithoutDuplicates(kept);
    IndexFinds(bs, BindingName, b);
    forall i | 0 <= i < |keys| ensures at(m, keys[i]) == x <==> keys[i] == b.name {
      assert kept[i] in kept;
      IndexFinds(bs, BindingName, kept[i]);
      assert BindingName(kept[i]) == keys[i];
    }
    SelectCount(m, at, keys, b.name, x);
    if b.name in keys {
      var i :| 0 <= i < |keys| && keys[i] == b.name;
      assert kept[i] in kept;
      IndexFinds(bs, BindingName, kept[i]);
      assert kept[i] == b;
    }
    if b in kept {
      var i :| 0 <= i < |kept| && kept[i] == b;
      assert keys[i] == b.name;
    }
  }

  /** A role binding is written next to the CSV, once, unless it gives a known role through an
      accepted group to nobody but CSV accounts; likewise for cluster role bindings. */
  lemma {:induction false} RoleBindingConserved(m: Manifests, extraSAs: seq<string>, s: Split, order: seq<string>,
                                                clusterOrder: seq<string>, b: Binding)
    requires IsSplit(m, extraSAs, s, order, clusterOrder)
    requires UniqueNames(m.roleBindings, BindingName) && b in m.roleBindings
    ensures multiset(s.out)[RoleBindingObj(b)]
            == if Absorbed(b, RoleKind, Names(m.roles), CsvAccounts(m, extraSAs))
               || Absorbed(b, ClusterRoleKind, Names(m.clusterRoles), CsvAccounts(m, extraSAs)) then 0 else 1
  {
    var accounts := CsvAccounts(m, extraSAs);
    var x := RoleBindingObj(b);
    var once := Unabsorbed(m.roleBindings, RoleKind, Names(m.roles), accounts);
    UnabsorbedMember(m.roleBindings, RoleKind, Names(m.roles), accounts);
    UnabsorbedMember(once, ClusterRoleKind, Names(m.clusterRoles), accounts);
    BindingsWrittenOut(m.roleBindings, KeptRoleBindings(m, extraSAs), RoleBindingAt, b, x);
    SelectNone(LastNamed(m.roles, RoleName), RoleAt, order, x);
    SelectNone(LastNamed(m.clusterRoles, RoleName), ClusterRoleAt, clusterOrder, x);
    SelectNone(LastNamed(m.clusterRoleBindings, BindingName), ClusterRoleBindingAt,
               NamesOf(KeptClusterRoleBindings(m, extraSAs)), x);
    ForeignAccountsMember(m.serviceAccounts, accounts, x);
  }

  lemma {:induction false} ClusterRoleBindingConserved(m: Manifests, extraSAs: seq<string>, s: Split,
                                                       order: seq<string>, clusterOrder: seq<string>, b: Binding)
    requires IsSplit(m, extraSAs, s, order, clusterOrder)
    requires UniqueNames(m.clusterRoleBindings, BindingName) && b in m.clusterRoleBindings
    ensures multiset(s.out)[ClusterRoleBindingObj(b)]
            == if Absorbed(b, ClusterRoleKind, Names(m.clusterRoles), CsvAccounts(m, extraSAs)) then 0 else 1
  {
    var accounts := CsvAccounts(m, extraSAs);
    var x := ClusterRoleBindingObj(b);
    UnabsorbedMember(m.clusterRoleBindings, ClusterRoleKind, Names(m.clusterRoles), accounts);
    BindingsWrittenOut(m.clusterRoleBindings, KeptClusterRoleBindings(m, extraSAs), ClusterRoleBindingAt, b, x);
    SelectNone(LastNamed(m.roles, RoleName), RoleAt, order, x);
    SelectNone(LastNamed(m.clusterRoles, RoleName), ClusterRoleAt, clusterOrder, x);
    SelectNone(LastNamed(m.roleBindings, BindingName), RoleBindingAt, NamesOf(KeptRoleBindings(m, extraSAs)), x);
    ForeignAccountsMember(m.serviceAccounts, accounts, x);
  }

  // ---- the nil role ----

  /** Both bindings give the same role of this kind to CSV accounts. */
  ghost predicate Clash(a: Binding, b: Binding, kind: Kind, names: set<string>, accounts: set<string>) {
    Binds(a, kind, names, accounts) && Binds(b, kind, names, accounts) && a.roleRef.name == b.roleRef.name
  }

  ghost predicate SomePair<T>(s: seq<T>, related: (T, T) -> bool) {
    exists i, j :: 0 <= i < j < |s| && related(s[i], s[j])
  }

  /** Two different bindings give the same role of this kind to CSV accounts. */
  ghost predicate BoundTwice(bs: seq<Binding>, kind: Kind, names: set<string>, accounts: set<string>) {
    SomePair(bs, (a, b) => Clash(a, b, kind, names, accounts))
  }

  lemma {:induction false} TakeRolesNil(names: seq<string>, m: map<string, Role>)
    ensures NilObject in TakeRoles(names, m) <==> !NoDuplicates(names) || exists n :: n in names && n !in m
  {
    if names != [] {
      assert names == [names[0]] + names[1..];
      TakeRolesNil(names[1..], m - {names[0]});
      if names[0] in names[1..] {
        var i :| 0 <= i < |names[1..]| && names[1..][i] == names[0];
        assert names[i + 1] == names[0];
      }
      if !NoDuplicates(names[1..]) {
        var i, j :| 0 <= i < j < |names[1..]| && names[1..][i] == names[1..][j];
        assert names[i + 1] == names[j + 1];
      }
    }
  }

  lemma SomePairHead<T>(s: seq<T>, related: (T, T) -> bool)
    requires s != []
    ensures SomePair(s, related) <==> SomePair(s[1..], related) || exists b :: b in s[1..] && related(s[0], b)
  {
    var rest := s[1..];
    if SomePair(rest, related) {
      var i, j :| 0 <= i < j < |rest| && related(rest[i], rest[j]);
      assert related(s[i + 1], s[j + 1]);
    }
    if SomePair(s, related) {
      var i, j :| 0 <= i < j < |s| && related(s[i], s[j]);
      assert s[j] == rest[j - 1] && (i > 0 ==> s[i] == rest[i - 1]);
    }
    forall b | b in rest && related(s[0], b) ensures SomePair(s, related) {
      var j :| 0 <= j < |rest| && rest[j] == b;
      assert s[j + 1] == b;
    }
  }

  lemma {:induction false} BoundNamesDuplicates(bs: seq<Binding>, kind: Kind, names: set<string>, accounts: set<string>)
    ensures !NoDuplicates(BoundNames(bs, kind, names, accounts)) <==> BoundTwice(bs, kind, names, accounts)
  {
    if bs != [] {
      BoundNamesDuplicates(bs[1..], kind, names, accounts);
      BoundNamesMember(bs[1..], kind, names, accounts, bs[0].roleRef.name);
      ConsDuplicates(bs[0].roleRef.name, BoundNames(bs[1..], kind, names, accounts));
      SomePairHead(bs, (a, b) => Clash(a, b, kind, names, accounts));
    }
  }

  lemma SelectsNoNil(m: map<string, Role>, keys: seq<string>)
    requires forall k :: k in keys ==> k in m
    ensures NilObject !in Select(m, ClusterRoleAt, keys)
  {
    var s := Select(m, ClusterRoleAt, keys);
    forall i | 0 <= i < |s| ensures s[i] != NilObject {
      assert keys[i] in keys && s[i] == ClusterRoleAt(m, keys[i]);
    }
  }

  lemma BoundNamesKnown(bs: seq<Binding>, kind: Kind, roles: seq<Role>, accounts: set<string>)
    ensures forall n :: n in BoundNames(bs, kind, Names(roles), accounts) ==> n in LastNamed(roles, RoleName)
  {
    KeysOfRoles(roles);
    forall n | n in BoundNames(bs, kind, Names(roles), accounts) ensures n in LastNamed(roles, RoleName) {
      BoundNamesMember(bs, kind, Names(roles), accounts, n);
    }
  }

  /** The CSV permissions contain a nil role exactly when two role bindings give the same
      Role to CSV accounts. */
  lemma NilRoleIffBoundTwice(m: Manifests, extraSAs: seq<string>, s: Split, order: seq<string>,
                             clusterOrder: seq<string>)
    requires IsSplit(m, extraSAs, s, order, clusterOrder)
    ensures NilObject in s.inPerms
        <==> BoundTwice(m.roleBindings, RoleKind, Names(m.roles), CsvAccounts(m, extraSAs))
    ensures NilObject !in s.inCPerms
  {
    var accounts := CsvAccounts(m, extraSAs);
    var clusterRoles := LastNamed(m.clusterRoles, RoleName);
    TakeRolesNil(BoundRoles(m, extraSAs), LastNamed(m.roles, RoleName));
    BoundNamesKnown(m.roleBindings, RoleKind, m.roles, accounts);
    BoundNamesKnown(m.roleBindings, ClusterRoleKind, m.clusterRoles, accounts);
    BoundNamesKnown(m.clusterRoleBindings, ClusterRoleKind, m.clusterRoles, accounts);
    SelectsNoNil(clusterRoles, BoundClusterRoles(m, extraSAs));
    SelectsNoNil(clusterRoles, ClusterBoundRoles(m, extraSAs));
    BoundNamesDuplicates(m.roleBindings, RoleKind, Names(m.roles), accounts);
  }

  // ---- at which input ----

  function OneRole(rule: PolicyRule, bindings: seq<Binding>): Manifests {
    Manifests(["a"], [Role("r", [rule])], [], bindings, [], [])
  }

  function BindingOfR(name: string, subjects: seq<Subject>): Binding {
    Binding(name, RoleRef(NoGroup, RoleKind, "r"), subjects)
  }

  /** Two bindings of the role "r" to account "a" put a nil role into the permissions. */
  lemma {:induction false} TwoBindingsGiveNil(rule: PolicyRule, s: Split, order: seq<string>, clusterOrder: seq<string>)
    requires var a := Subject(ServiceAccountKind, "a");
             IsSplit(OneRole(rule, [BindingOfR("x", [a]), BindingOfR("y", [a])]), [], s, order, clusterOrder)
    ensures NilObject in s.inPerms
  {
    var a := Subject(ServiceAccountKind, "a");
    var x, y := BindingOfR("x", [a]), BindingOfR("y", [a]);
    var m := OneRole(rule, [x, y]);
    var names, accounts := Names(m.roles), CsvAccounts(m, []);
    assert m.roles[0] in m.roles && m.deploymentAccounts[0] in m.deploymentAccounts && AccountOf("a") == "a";
    assert x.subjects[0] in x.subjects && y.subjects[0] in y.subjects && Relevant(a, accounts);
    assert Clash(m.roleBindings[0], m.roleBindings[1], RoleKind, names, accounts);
    NilRoleIffBoundTwice(m, [], s, order, clusterOrder);
  }

  /** A binding of the role "r" without subjects is not written out at all. */
  lemma {:induction false} EmptyBindingIsLost(rule: PolicyRule, s: Split, order: seq<string>, clusterOrder: seq<string>)
    requires IsSplit(OneRole(rule, [BindingOfR("x", [])]), [], s, order, clusterOrder)
    ensures multiset(s.out)[RoleBindingObj(BindingOfR("x", []))] == 0
  {
    var x := BindingOfR("x", []);
    var m := OneRole(rule, [x]);
    assert m.roles[0] in m.roles && x in m.roleBindings;
    RoleBindingConserved(m, [], s, order, clusterOrder, x);
  }
}
