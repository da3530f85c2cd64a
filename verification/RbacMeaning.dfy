/** The CSV grants what the collected manifests grant. */
module RbacMeaning {
  import opened Collector
  import opened RbacConservation
  import opened Permissions

  /** The install strategy of a CSV, filled in place. */
  class Strategy {
    var permissions: seq<Permission>
    var clusterPermissions: seq<Permission>

    constructor ()
    {
      permissions, clusterPermissions := [], [];
    }

    /** Applies the collected RBAC manifests. Reading the name of a nil role panics. */
    method Apply(m: Manifests, extraSAs: seq<string>) returns (panicked: bool)
      modifies this
      ensures panicked <==> BoundTwice(m.roleBindings, RoleKind, Names(m.roles), CsvAccounts(m, extraSAs))
      ensures panicked ==> permissions == old(permissions) && clusterPermissions == old(clusterPermissions)
      ensures !panicked ==> exists s, order, clusterOrder ::
                && IsSplit(m, extraSAs, s, order, clusterOrder)
                && Describes(permissions, CsvAccounts(m, extraSAs), m.roleBindings, RoleLookup(s))
                && Describes(clusterPermissions, CsvAccounts(m, extraSAs), m.clusterRoleBindings, ClusterLookup(s))
    {
      var s := SplitCSVPermissionsObjects(m, extraSAs);
      ghost var order, clusterOrder :| IsSplit(m, extraSAs, s, order, clusterOrder);
      NilRoleIffBoundTwice(m, extraSAs, s, order, clusterOrder);
      var accounts := CollectAccounts(m, extraSAs);
      panicked := NilObject in s.inPerms;
      if !panicked {
        permissions := SortedPermissions(m.roleBindings, RoleLookup(s), accounts);
        clusterPermissions := SortedPermissions(m.clusterRoleBindings, ClusterLookup(s), accounts);
      }
    }
  }

  function RoleLookup(s: Split): Lookup { ByKind(CollectRoles(s.inPerms), CollectClusterRoles(s.inPerms)) }

  function ClusterLookup(s: Split): Lookup { ClusterOnly(CollectClusterRoles(s.inCPerms)) }

  // ---- what a lookup finds ----

  lemma {:induction false} CollectedRole(objs: seq<Object>, n: string)
    ensures n in CollectRoles(objs) ==> CollectRoles(objs)[n].name == n && RoleObj(CollectRoles(objs)[n]) in objs
    ensures forall r: Role :: RoleObj(r) in objs && r.name == n ==> n in CollectRoles(objs)
  {
    if objs != [] {
      assert objs == objs[..|objs| - 1] + [objs[|objs| - 1]];
      CollectedRole(objs[..|objs| - 1], n);
    }
  }

  lemma {:induction false} CollectedClusterRole(objs: seq<Object>, n: string)
    ensures n in CollectClusterRoles(objs)
            ==> CollectClusterRoles(objs)[n].name == n && ClusterRoleObj(CollectClusterRoles(objs)[n]) in objs
    ensures forall r: Role :: ClusterRoleObj(r) in objs && r.name == n ==> n in CollectClusterRoles(objs)
  {
    if objs != [] {
      assert objs == objs[..|objs| - 1] + [objs[|objs| - 1]];
      CollectedClusterRole(objs[..|objs| - 1], n);
    }
  }

  lemma {:induction false} SubjectRulesMember(subjects: seq<Subject>, rules: seq<PolicyRule>, account: string,
                                              rule: PolicyRule)
    ensures rule in SubjectRules(subjects, rules, account)
        <==> rule in rules && exists s :: s in subjects && IsAccount(s, account)
  {
    if subjects != [] {
      assert subjects == [subjects[0]] + subjects[1..];
      SubjectRulesMember(subjects[1..], rules, account, rule);
    }
  }

  ghost predicate HasSubject(b: Binding, account: string) { exists s :: s in b.subjects && IsAccount(s, account) }

  lemma {:induction false} GrantedMember(bs: seq<Binding>, l: Lookup, account: string, rule: PolicyRule)
    ensures rule in Granted(bs, l, account)
        <==> exists b :: b in bs && HasSubject(b, account) && rule in RulesOf(l, b.roleRef)
  {
    if bs != [] {
      assert bs == [bs[0]] + bs[1..];
      SubjectRulesMember(bs[0].subjects, RulesOf(l, bs[0].roleRef), account, rule);
      GrantedMember(bs[1..], l, account, rule);
    }
  }

  /** A permission list gives a rule to an account. */
  ghost predicate Gives(perms: seq<Permission>, account: string, rule: PolicyRule) {
    exists p :: p in perms && p.account == account && rule in p.rules
  }

  lemma GivesWhatIsGranted(perms: seq<Permission>, accounts: set<string>, bs: seq<Binding>, l: Lookup, account: string,
                           rule: PolicyRule)
    requires Describes(perms, accounts, bs, l) && account in accounts
    ensures Gives(perms, account, rule) <==> rule in Granted(bs, l, account)
  {
    if rule in Granted(bs, l, account) {
      assert Permission(account, Granted(bs, l, account)) in perms;
    }
  }

  /** `role`, collected with the given kind, contains the rule and is what `b` refers to. */
  ghost predicate Carries(b: Binding, kind: Kind, role: Role, rule: PolicyRule) {
    b.roleRef.kind == kind && b.roleRef.name == role.name && rule in role.rules
  }

  /** Some role binding gives the named role to a CSV account through an accepted group. */
  ghost predicate Taken(bs: seq<Binding>, kind: Kind, roles: seq<Role>, accounts: set<string>, name: string) {
    exists b :: b in bs && Binds(b, kind, Names(roles), accounts) && b.roleRef.name == name
  }

  lemma LookupRole(m: Manifests, extraSAs: seq<string>, s: Split, order: seq<string>, clusterOrder: seq<string>,
                   ref: RoleRef, rule: PolicyRule)
    requires IsSplit(m, extraSAs, s, order, clusterOrder) && UniqueNames(m.roles, RoleName)
    requires ref.kind.RoleKind?
    ensures rule in RulesOf(RoleLookup(s), ref) <==> exists r ::
              r in m.roles && r.name == ref.name && rule in r.rules
                && Taken(m.roleBindings, RoleKind, m.roles, CsvAccounts(m, extraSAs), r.name)
  {
    CollectedRole(s.inPerms, ref.name);
    forall r | r in m.roles
      ensures RoleObj(r) in s.inPerms <==> Taken(m.roleBindings, RoleKind, m.roles, CsvAccounts(m, extraSAs), r.name)
    {
      RoleConserved(m, extraSAs, s, order, clusterOrder, r);
    }
    if ref.name in CollectRoles(s.inPerms) {
      var r := CollectRoles(s.inPerms)[ref.name];
      PermissionRolesCollected(m, extraSAs, s, order, clusterOrder, RoleObj(r));
    }
    SameNameSameRole(m.roles);
  }

  lemma SameNameSameRole(roles: seq<Role>)
    requires UniqueNames(roles, RoleName)
    ensures forall a, b :: a in roles && b in roles && a.name == b.name ==> a == b
  {
    forall a, b | a in roles && b in roles && a.name == b.name ensures a == b {
      IndexFinds(roles, RoleName, a);
      IndexFinds(roles, RoleName, b);
      assert RoleName(a) == RoleName(b);
    }
  }

  lemma {:induction false} TakenRolesCollected(names: seq<string>, m: map<string, Role>, o: Object)
    requires o in TakeRoles(names, m)
    ensures o.NilObject? || (o.RoleObj? && exists k :: k in m && m[k] == o.role)
  {
    if o != RoleAt(m, names[0]) {
      TakenRolesCollected(names[1..], m - {names[0]}, o);
    }
  }

  lemma SelectedClusterRole(m: map<string, Role>, keys: seq<string>, o: Object)
    requires o in Select(m, ClusterRoleAt, keys)
    ensures o.NilObject? || (o.ClusterRoleObj? && exists k :: k in m && m[k] == o.role)
  {
    var i :| 0 <= i < |keys| && Select(m, ClusterRoleAt, keys)[i] == o;
    assert o == ClusterRoleAt(m, keys[i]);
  }

  /** Only collected roles enter the permissions, and no plain Role enters the cluster permissions. */
  lemma PermissionRolesCollected(m: Manifests, extraSAs: seq<string>, s: Split, order: seq<string>,
                                 clusterOrder: seq<string>, o: Object)
    requires IsSplit(m, extraSAs, s, order, clusterOrder)
    requires o in s.inPerms || o in s.inCPerms
    ensures o.NilObject? || (o.RoleObj? && o.role in m.roles) || (o.ClusterRoleObj? && o.role in m.clusterRoles)
  {
    var roles, clusterRoles := LastNamed(m.roles, RoleName), LastNamed(m.clusterRoles, RoleName);
    IndexedUnderName(m.roles, RoleName);
    IndexedUnderName(m.clusterRoles, RoleName);
    if o in TakeRoles(BoundRoles(m, extraSAs), roles) {
      TakenRolesCollected(BoundRoles(m, extraSAs), roles, o);
    } else if o in s.inPerms {
      SelectedClusterRole(clusterRoles, BoundClusterRoles(m, extraSAs), o);
    } else {
      SelectedClusterRole(clusterRoles, ClusterBoundRoles(m, extraSAs), o);
    }
  }

  lemma LookupClusterRole(m: Manifests, extraSAs: seq<string>, s: Split, order: seq<string>, clusterOrder: seq<string>,
                          name: string, rule: PolicyRule)
    requires IsSplit(m, extraSAs, s, order, clusterOrder) && UniqueNames(m.clusterRoles, RoleName)
    ensures rule in RulesIn(CollectClusterRoles(s.inPerms), name) <==> exists r ::
              r in m.clusterRoles && r.name == name && rule in r.rules
              && Taken(m.roleBindings, ClusterRoleKind, m.clusterRoles, CsvAccounts(m, extraSAs), r.name)
    ensures rule in RulesIn(CollectClusterRoles(s.inCPerms), name) <==> exists r ::
              r in m.clusterRoles && r.name == name && rule in r.rules
              && Taken(m.clusterRoleBindings, ClusterRoleKind, m.clusterRoles, CsvAccounts(m, extraSAs), r.name)
  {
    CollectedClusterRole(s.inPerms, name);
    CollectedClusterRole(s.inCPerms, name);
    forall r | r in m.clusterRoles
      ensures ClusterRoleObj(r) in s.inPerms
         <==> Taken(m.roleBindings, ClusterRoleKind, m.clusterRoles, CsvAccounts(m, extraSAs), r.name)
      ensures ClusterRoleObj(r) in s.inCPerms
         <==> Taken(m.clusterRoleBindings, ClusterRoleKind, m.clusterRoles, CsvAccounts(m, extraSAs), r.name)
    {
      ClusterRoleConserved(m, extraSAs, s, order, clusterOrder, r);
    }
    forall r | ClusterRoleObj(r) in s.inPerms || ClusterRoleObj(r) in s.inCPerms ensures r in m.clusterRoles {
      PermissionRolesCollected(m, extraSAs, s, order, clusterOrder, ClusterRoleObj(r));
    }
    SameNameSameRole(m.clusterRoles);
  }

  // ---- the meaning of the CSV ----

  /** `b` refers, under `kind`, to a collected role with this rule that has been taken into the CSV. */
  ghost predicate GrantsThrough(b: Binding, bs: seq<Binding>, kind: Kind, roles: seq<Role>, accounts: set<string>,
                                rule: PolicyRule)
  {
    exists r :: r in roles && Carries(b, kind, r, rule) && Taken(bs, kind, roles, accounts, r.name)
  }

  /** Exactly what the namespaced permissions grant, for all manifests with unique role names. */
  lemma PermissionsExact(m: Manifests, extraSAs: seq<string>, s: Split, order: seq<string>, clusterOrder: seq<string>,
                         perms: seq<Permission>, account: string, rule: PolicyRule)
    requires IsSplit(m, extraSAs, s, order, clusterOrder)
    requires UniqueNames(m.roles, RoleName) && UniqueNames(m.clusterRoles, RoleName)
    requires Describes(perms, CsvAccounts(m, extraSAs), m.roleBindings, RoleLookup(s))
    requires account in CsvAccounts(m, extraSAs)
    ensures Gives(perms, account, rule) <==> exists b ::
              b in m.roleBindings && HasSubject(b, account)
              && (GrantsThrough(b, m.roleBindings, RoleKind, m.roles, CsvAccounts(m, extraSAs), rule)
                  || GrantsThrough(b, m.roleBindings, ClusterRoleKind, m.clusterRoles, CsvAccounts(m, extraSAs), rule))
  {
    var accounts := CsvAccounts(m, extraSAs);
    GivesWhatIsGranted(perms, accounts, m.roleBindings, RoleLookup(s), account, rule);
    GrantedMember(m.roleBindings, RoleLookup(s), account, rule);
    forall b | b in m.roleBindings
      ensures rule in RulesOf(RoleLookup(s), b.roleRef)
         <==> GrantsThrough(b, m.roleBindings, RoleKind, m.roles, accounts, rule)
              || GrantsThrough(b, m.roleBindings, ClusterRoleKind, m.clusterRoles, accounts, rule)
    {
      if b.roleRef.kind.RoleKind? {
        LookupRole(m, extraSAs, s, order, clusterOrder, b.roleRef, rule);
      } else if b.roleRef.kind.ClusterRoleKind? {
        LookupClusterRole(m, extraSAs, s, order, clusterOrder, b.roleRef.name, rule);
      }
    }
  }

  /** Exactly what the cluster permissions grant; the kind of the reference is not looked at again. */
  lemma ClusterPermissionsExact(m: Manifests, extraSAs: seq<string>, s: Split, order: seq<string>,
                                clusterOrder: seq<string>,
                                perms: seq<Permission>, account: string, rule: PolicyRule)
    requires IsSplit(m, extraSAs, s, order, clusterOrder) && UniqueNames(m.clusterRoles, RoleName)
    requires Describes(perms, CsvAccounts(m, extraSAs), m.clusterRoleBindings, ClusterLookup(s))
    requires account in CsvAccounts(m, extraSAs)
    ensures Gives(perms, account, rule) <==> exists b, r ::
              b in m.clusterRoleBindings && HasSubject(b, account) && r in m.clusterRoles
              && Carries(b, b.roleRef.kind, r, rule)
              && Taken(m.clusterRoleBindings, ClusterRoleKind, m.clusterRoles, CsvAccounts(m, extraSAs), r.name)
  {
    var accounts := CsvAccounts(m, extraSAs);
    GivesWhatIsGranted(perms, accounts, m.clusterRoleBindings, ClusterLookup(s), account, rule);
    GrantedMember(m.clusterRoleBindings, ClusterLookup(s), account, rule);
    forall b | b in m.clusterRoleBindings
      ensures rule in RulesOf(ClusterLookup(s), b.roleRef) <==> exists r ::
                r in m.clusterRoles && Carries(b, b.roleRef.kind, r, rule)
                && Taken(m.clusterRoleBindings, ClusterRoleKind, m.clusterRoles, accounts, r.name)
    {
      LookupClusterRole(m, extraSAs, s, order, clusterOrder, b.roleRef.name, rule);
    }
  }

  /** A binding through an accepted group takes the role it gives to a CSV account. */
  lemma TakesItsRole(b: Binding, bs: seq<Binding>, kind: Kind, roles: seq<Role>, accounts: set<string>, r: Role,
                     rule: PolicyRule, account: string)
    requires b in bs && AcceptRefGroup(b.roleRef.apiGroup) && r in roles && Carries(b, kind, r, rule)
    requires HasSubject(b, account) && account in accounts
    ensures Taken(bs, kind, roles, accounts, r.name)
  {
    assert Binds(b, kind, Names(roles), accounts);
  }

  ghost predicate AcceptedGroups(bs: seq<Binding>) {
    forall b :: b in bs ==> b.roleRef.apiGroup == NoGroup || b.roleRef.apiGroup == RbacGroup
  }

  /** RBAC meaning is preserved: the namespaced permissions of a CSV account are the rules of
      the collected roles that some role binding gives to that account. */
  lemma PermissionsMeanManifests(m: Manifests, extraSAs: seq<string>, s: Split, order: seq<string>,
                                 clusterOrder: seq<string>,
                                 perms: seq<Permission>, account: string, rule: PolicyRule)
    requires IsSplit(m, extraSAs, s, order, clusterOrder)
    requires UniqueNames(m.roles, RoleName) && UniqueNames(m.clusterRoles, RoleName)
    requires Describes(perms, CsvAccounts(m, extraSAs), m.roleBindings, RoleLookup(s))
    requires account in CsvAccounts(m, extraSAs) && AcceptedGroups(m.roleBindings)
    ensures Gives(perms, account, rule) <==> exists b, r ::
              b in m.roleBindings && HasSubject(b, account)
              && ((r in m.roles && Carries(b, RoleKind, r, rule))
                  || (r in m.clusterRoles && Carries(b, ClusterRoleKind, r, rule)))
  {
    var accounts := CsvAccounts(m, extraSAs);
    PermissionsExact(m, extraSAs, s, order, clusterOrder, perms, account, rule);
    forall b, r | b in m.roleBindings && HasSubject(b, account) && r in m.roles && Carries(b, RoleKind, r, rule)
      ensures GrantsThrough(b, m.roleBindings, RoleKind, m.roles, accounts, rule)
    {
      TakesItsRole(b, m.roleBindings, RoleKind, m.roles, accounts, r, rule, account);
    }
    forall b, r | b in m.roleBindings && HasSubject(b, account) && r in m.clusterRoles
      && Carries(b, ClusterRoleKind, r, rule)
      ensures GrantsThrough(b, m.roleBindings, ClusterRoleKind, m.clusterRoles, accounts, rule)
    {
      TakesItsRole(b, m.roleBindings, ClusterRoleKind, m.clusterRoles, accounts, r, rule, account);
    }
  }

  /** Likewise for cluster permissions, when cluster role bindings refer to cluster roles. */
  lemma ClusterPermissionsMeanManifests(m: Manifests, extraSAs: seq<string>, s: Split, order: seq<string>,
                                        clusterOrder: seq<string>,
                                        perms: seq<Permission>, account: string, rule: PolicyRule)
    requires IsSplit(m, extraSAs, s, order, clusterOrder) && UniqueNames(m.clusterRoles, RoleName)
    requires Describes(perms, CsvAccounts(m, extraSAs), m.clusterRoleBindings, ClusterLookup(s))
    requires account in CsvAccounts(m, extraSAs) && AcceptedGroups(m.clusterRoleBindings)
    requires forall b :: b in m.clusterRoleBindings ==> b.roleRef.kind == ClusterRoleKind
    ensures Gives(perms, account, rule) <==> exists b, r ::
              b in m.clusterRoleBindings && HasSubject(b, account) && r in m.clusterRoles
                && Carries(b, ClusterRoleKind, r, rule)
  {
    var accounts := CsvAccounts(m, extraSAs);
    ClusterPermissionsExact(m, extraSAs, s, order, clusterOrder, perms, account, rule);
    forall b, r | b in m.clusterRoleBindings && HasSubject(b, account) && r in m.clusterRoles
      && Carries(b, ClusterRoleKind, r, rule)
      ensures Taken(m.clusterRoleBindings, ClusterRoleKind, m.clusterRoles, accounts, r.name)
    {
      TakesItsRole(b, m.clusterRoleBindings, ClusterRoleKind, m.clusterRoles, accounts, r, rule, account);
    }
  }

  /** Without the condition on groups the CSV can grant more: here account "a" is only named by
      a binding whose group is not accepted, yet it receives the rule because another binding
      has taken the role in. That first binding is also written next to the CSV. */
  lemma {:induction false} ForeignGroupStillGrants(s: Split, order: seq<string>, clusterOrder: seq<string>,
                                                   perms: seq<Permission>, rule: PolicyRule)
    requires IsSplit(ForeignExample(rule), [], s, order, clusterOrder)
    requires Describes(perms, CsvAccounts(ForeignExample(rule), []), ForeignExample(rule).roleBindings, RoleLookup(s))
    ensures Gives(perms, "a", rule)
    ensures multiset(s.out)[RoleBindingObj(ForeignExample(rule).roleBindings[0])] == 1
  {
    var m := ForeignExample(rule);
    ForeignExampleTakesRole(rule);
    assert m.roleBindings[0] in m.roleBindings && m.roles[0] in m.roles;
    assert Carries(m.roleBindings[0], RoleKind, m.roles[0], rule);
    PermissionsExact(m, [], s, order, clusterOrder, perms, "a", rule);
    RoleBindingConserved(m, [], s, order, clusterOrder, m.roleBindings[0]);
  }

  lemma ForeignExampleTakesRole(rule: PolicyRule)
    ensures var m := ForeignExample(rule);
            && "a" in CsvAccounts(m, [])
            && HasSubject(m.roleBindings[0], "a")
            && Taken(m.roleBindings, RoleKind, m.roles, CsvAccounts(m, []), "r")
  {
    var m := ForeignExample(rule);
    var b0, b1 := m.roleBindings[0], m.roleBindings[1];
    assert m.deploymentAccounts[0] in m.deploymentAccounts && m.deploymentAccounts[1] in m.deploymentAccounts;
    assert AccountOf("a") == "a" && AccountOf("b") == "b";
    assert b0.subjects[0] in b0.subjects && b1.subjects[0] in b1.subjects && b1 in m.roleBindings;
    assert m.roles[0] in m.roles;
    assert IsAccount(b0.subjects[0], "a");
    assert Relevant(b1.subjects[0], CsvAccounts(m, []));
    assert Binds(b1, RoleKind, Names(m.roles), CsvAccounts(m, []));
  }

  function ForeignExample(rule: PolicyRule): Manifests {
    var a, b := Subject(ServiceAccountKind, "a"), Subject(ServiceAccountKind, "b");
    Manifests(["a", "b"], [Role("r", [rule])], [],
              [Binding("x", RoleRef(OtherGroup("x"), RoleKind, "r"), [a]),
               Binding("y", RoleRef(NoGroup, RoleKind, "r"), [b])],
              [], [])
  }
}
