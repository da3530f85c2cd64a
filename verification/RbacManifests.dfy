/** What the CSV takes in, what is written next to it, and what it grants, in terms of the
    manifests alone. */
module RbacManifests {
  import opened Sorting
  import opened Collector
  import opened RbacConservation
  import opened Permissions
  import opened RbacMeaning

  // ---- accounts, groups and bindings ----

  /** An account of a deployment, "default" if none is given, or an extra one. */
  ghost predicate ForCsv(m: Manifests, extraSAs: seq<string>, account: string) {
    account in extraSAs || exists a :: a in m.deploymentAccounts && account == if a == "" then "default" else a
  }

  lemma ForCsvIff(m: Manifests, extraSAs: seq<string>, account: string)
    ensures account in CsvAccounts(m, extraSAs) <==> ForCsv(m, extraSAs, account)
  {
    if a :| a in m.deploymentAccounts && account == if a == "" then "default" else a {
      assert AccountOf(a) == account;
    }
  }

  /** The subject is a service account of the CSV. */
  ghost predicate IsCsvSubject(m: Manifests, extraSAs: seq<string>, s: Subject) {
    s.kind == ServiceAccountKind && ForCsv(m, extraSAs, s.name)
  }

  /** The binding refers to this kind of role by a name that is collected, in the group of RBAC or
      in none. */
  ghost predicate PointsAt(b: Binding, kind: Kind, roles: seq<Role>) {
    && b.roleRef.kind == kind && (b.roleRef.apiGroup == NoGroup || b.roleRef.apiGroup == RbacGroup)
    && exists r :: r in roles && r.name == b.roleRef.name
  }

  ghost predicate ToSomeAccount(m: Manifests, extraSAs: seq<string>, b: Binding) {
    exists s :: s in b.subjects && IsCsvSubject(m, extraSAs, s)
  }

  ghost predicate ToAccountsOnly(m: Manifests, extraSAs: seq<string>, b: Binding) {
    forall s :: s in b.subjects ==> IsCsvSubject(m, extraSAs, s)
  }

  lemma PointsAtIff(b: Binding, kind: Kind, roles: seq<Role>)
    ensures RefersTo(b, kind, Names(roles)) <==> PointsAt(b, kind, roles)
  {
  }

  lemma BindsIff(m: Manifests, extraSAs: seq<string>, b: Binding, kind: Kind, roles: seq<Role>)
    ensures Binds(b, kind, Names(roles), CsvAccounts(m, extraSAs))
       <==> PointsAt(b, kind, roles) && ToSomeAccount(m, extraSAs, b)
    ensures Absorbed(b, kind, Names(roles), CsvAccounts(m, extraSAs))
       <==> PointsAt(b, kind, roles) && ToAccountsOnly(m, extraSAs, b)
  {
    PointsAtIff(b, kind, roles);
    forall s: Subject ensures Relevant(s, CsvAccounts(m, extraSAs)) <==> IsCsvSubject(m, extraSAs, s) {
      ForCsvIff(m, extraSAs, s.name);
    }
  }

  /** Some of these bindings gives that role to an account of the CSV. */
  ghost predicate GivenToCsv(m: Manifests, extraSAs: seq<string>, bs: seq<Binding>, kind: Kind, roles: seq<Role>,
                             r: Role)
  {
    exists b :: b in bs && PointsAt(b, kind, roles) && b.roleRef.name == r.name && ToSomeAccount(m, extraSAs, b)
  }

  lemma GivenIff(m: Manifests, extraSAs: seq<string>, bs: seq<Binding>, kind: Kind, roles: seq<Role>, r: Role)
    ensures GivenToCsv(m, extraSAs, bs, kind, roles, r) <==> Taken(bs, kind, roles, CsvAccounts(m, extraSAs), r.name)
  {
    forall b ensures Binds(b, kind, Names(roles), CsvAccounts(m, extraSAs))
                     <==> PointsAt(b, kind, roles) && ToSomeAccount(m, extraSAs, b) {
      BindsIff(m, extraSAs, b, kind, roles);
    }
  }

  // ---- what goes where ----

  /** A Role goes into the permissions exactly if a role binding gives it to an account of the
      CSV, and otherwise next to the CSV; in either case once. */
  lemma RoleGoes(m: Manifests, extraSAs: seq<string>, s: Split, order: seq<string>, clusterOrder: seq<string>, r: Role)
    requires IsSplit(m, extraSAs, s, order, clusterOrder) && UniqueNames(m.roles, RoleName) && r in m.roles
    ensures var given := GivenToCsv(m, extraSAs, m.roleBindings, RoleKind, m.roles, r);
            && multiset(s.inPerms)[RoleObj(r)] == (if given then 1 else 0)
            && multiset(s.out)[RoleObj(r)] == (if given then 0 else 1)
            && multiset(s.inCPerms)[RoleObj(r)] == 0
  {
    RoleConserved(m, extraSAs, s, order, clusterOrder, r);
    GivenIff(m, extraSAs, m.roleBindings, RoleKind, m.roles, r);
  }

  /** A ClusterRole goes into the permissions of each scope in which a binding gives it to an
      account of the CSV, and next to the CSV if there is none. */
  lemma ClusterRoleGoes(m: Manifests, extraSAs: seq<string>, s: Split, order: seq<string>, clusterOrder: seq<string>,
                        r: Role)
    requires IsSplit(m, extraSAs, s, order, clusterOrder) && UniqueNames(m.clusterRoles, RoleName)
             && r in m.clusterRoles
    ensures var given := GivenToCsv(m, extraSAs, m.roleBindings, ClusterRoleKind, m.clusterRoles, r);
            var clusterGiven := GivenToCsv(m, extraSAs, m.clusterRoleBindings, ClusterRoleKind, m.clusterRoles, r);
            && (ClusterRoleObj(r) in s.inPerms <==> given)
            && (ClusterRoleObj(r) in s.inCPerms <==> clusterGiven)
            && multiset(s.out)[ClusterRoleObj(r)] == if given || clusterGiven then 0 else 1
  {
    ClusterRoleConserved(m, extraSAs, s, order, clusterOrder, r);
    GivenIff(m, extraSAs, m.roleBindings, ClusterRoleKind, m.clusterRoles, r);
    GivenIff(m, extraSAs, m.clusterRoleBindings, ClusterRoleKind, m.clusterRoles, r);
  }

  /** A binding is written next to the CSV, once, unless it points at a collected role and has no
      subject but accounts of the CSV. */
  lemma RoleBindingGoes(m: Manifests, extraSAs: seq<string>, s: Split, order: seq<string>, clusterOrder: seq<string>,
                        b: Binding)
    requires IsSplit(m, extraSAs, s, order, clusterOrder) && UniqueNames(m.roleBindings, BindingName)
             && b in m.roleBindings
    ensures multiset(s.out)[RoleBindingObj(b)]
            == if (PointsAt(b, RoleKind, m.roles) || PointsAt(b, ClusterRoleKind, m.clusterRoles))
                  && ToAccountsOnly(m, extraSAs, b) then 0 else 1
  {
    RoleBindingConserved(m, extraSAs, s, order, clusterOrder, b);
    BindsIff(m, extraSAs, b, RoleKind, m.roles);
    BindsIff(m, extraSAs, b, ClusterRoleKind, m.clusterRoles);
  }

  lemma ClusterRoleBindingGoes(m: Manifests, extraSAs: seq<string>, s: Split, order: seq<string>,
                               clusterOrder: seq<string>, b: Binding)
    requires IsSplit(m, extraSAs, s, order, clusterOrder)
    requires UniqueNames(m.clusterRoleBindings, BindingName) && b in m.clusterRoleBindings
    ensures multiset(s.out)[ClusterRoleBindingObj(b)]
            == if PointsAt(b, ClusterRoleKind, m.clusterRoles) && ToAccountsOnly(m, extraSAs, b) then 0 else 1
  {
    ClusterRoleBindingConserved(m, extraSAs, s, order, clusterOrder, b);
    BindsIff(m, extraSAs, b, ClusterRoleKind, m.clusterRoles);
  }

  lemma {:induction false} ForeignAccountCount(accounts: seq<string>, csv: set<string>, a: string)
    ensures multiset(ForeignAccounts(accounts, csv))[ServiceAccountObj(a)] == if a in csv then 0
            else multiset(accounts)[a]
  {
    if accounts != [] {
      ForeignAccountCount(accounts[1..], csv, a);
      assert accounts == [accounts[0]] + accounts[1..];
    }
  }

  /** A service account is written next to the CSV as often as it is collected, unless it is one
      of the CSV. */
  lemma AccountGoes(m: Manifests, extraSAs: seq<string>, s: Split, order: seq<string>, clusterOrder: seq<string>,
                    a: string)
    requires IsSplit(m, extraSAs, s, order, clusterOrder)
    ensures multiset(s.out)[ServiceAccountObj(a)] == if ForCsv(m, extraSAs, a) then 0
            else multiset(m.serviceAccounts)[a]
  {
    var x := ServiceAccountObj(a);
    ForCsvIff(m, extraSAs, a);
    ForeignAccountCount(m.serviceAccounts, CsvAccounts(m, extraSAs), a);
    SelectNone(LastNamed(m.roles, RoleName), RoleAt, order, x);
    SelectNone(LastNamed(m.clusterRoles, RoleName), ClusterRoleAt, clusterOrder, x);
    SelectNone(LastNamed(m.roleBindings, BindingName), RoleBindingAt, NamesOf(KeptRoleBindings(m, extraSAs)), x);
    SelectNone(LastNamed(m.clusterRoleBindings, BindingName), ClusterRoleBindingAt,
               NamesOf(KeptClusterRoleBindings(m, extraSAs)), x);
  }

  // ---- what is granted ----

  /** The account is a subject of the binding. */
  ghost predicate HasAccount(b: Binding, account: string) { Subject(ServiceAccountKind, account) in b.subjects }

  lemma HasAccountIff(b: Binding, account: string)
    ensures HasSubject(b, account) <==> HasAccount(b, account)
  {
    if s :| s in b.subjects && IsAccount(s, account) { assert s == Subject(ServiceAccountKind, account); }
    if HasAccount(b, account) { assert IsAccount(Subject(ServiceAccountKind, account), account); }
  }

  /** The role is what the binding refers to, and has the rule. */
  predicate Reads(b: Binding, kind: Kind, r: Role, rule: PolicyRule) {
    b.roleRef.kind == kind && b.roleRef.name == r.name && rule in r.rules
  }

  /** With references in the group of RBAC or in none: an account of the CSV is granted a rule in
      its namespace exactly if a role binding with the account as a subject refers to a collected
      Role or ClusterRole that has the rule. */
  lemma NamespacedGrants(m: Manifests, extraSAs: seq<string>, s: Split, order: seq<string>, clusterOrder: seq<string>,
                         perms: seq<Permission>, account: string, rule: PolicyRule)
    requires IsSplit(m, extraSAs, s, order, clusterOrder)
    requires UniqueNames(m.roles, RoleName) && UniqueNames(m.clusterRoles, RoleName)
    requires Describes(perms, CsvAccounts(m, extraSAs), m.roleBindings, RoleLookup(s))
    requires ForCsv(m, extraSAs, account) && AcceptedGroups(m.roleBindings)
    ensures (exists p :: p in perms && p.account == account && rule in p.rules) <==> exists b, r ::
              && b in m.roleBindings && HasAccount(b, account)
              && ((r in m.roles && Reads(b, RoleKind, r, rule))
                  || (r in m.clusterRoles && Reads(b, ClusterRoleKind, r, rule)))
  {
    ForCsvIff(m, extraSAs, account);
    PermissionsMeanManifests(m, extraSAs, s, order, clusterOrder, perms, account, rule);
    forall b ensures HasSubject(b, account) <==> HasAccount(b, account) { HasAccountIff(b, account); }
    SameReads(rule);
  }

  lemma SameReads(rule: PolicyRule)
    ensures forall b, kind, r :: Carries(b, kind, r, rule) <==> Reads(b, kind, r, rule)
  {
  }

  /** Likewise in the cluster, for references to ClusterRoles. */
  lemma ClusterGrants(m: Manifests, extraSAs: seq<string>, s: Split, order: seq<string>, clusterOrder: seq<string>,
                      perms: seq<Permission>, account: string, rule: PolicyRule)
    requires IsSplit(m, extraSAs, s, order, clusterOrder) && UniqueNames(m.clusterRoles, RoleName)
    requires Describes(perms, CsvAccounts(m, extraSAs), m.clusterRoleBindings, ClusterLookup(s))
    requires ForCsv(m, extraSAs, account) && AcceptedGroups(m.clusterRoleBindings)
    requires forall b :: b in m.clusterRoleBindings ==> b.roleRef.kind == ClusterRoleKind
    ensures (exists p :: p in perms && p.account == account && rule in p.rules) <==> exists b, r ::
              b in m.clusterRoleBindings && HasAccount(b, account)
              && r in m.clusterRoles && Reads(b, ClusterRoleKind, r, rule)
  {
    ForCsvIff(m, extraSAs, account);
    ClusterPermissionsMeanManifests(m, extraSAs, s, order, clusterOrder, perms, account, rule);
    forall b ensures HasSubject(b, account) <==> HasAccount(b, account) { HasAccountIff(b, account); }
    SameReads(rule);
  }

  /** Only accounts of the CSV are listed, each once, in ascending order and with some rule. */
  lemma ListedAccounts(m: Manifests, extraSAs: seq<string>, perms: seq<Permission>, bs: seq<Binding>, l: Lookup)
    requires Describes(perms, CsvAccounts(m, extraSAs), bs, l)
    ensures forall p :: p in perms ==> ForCsv(m, extraSAs, p.account) && p.rules != []
    ensures forall i, j :: 0 <= i < j < |perms| ==>
              perms[i].account != perms[j].account && StrLeq(perms[i].account, perms[j].account)
  {
    forall p | p in perms ensures ForCsv(m, extraSAs, p.account) { ForCsvIff(m, extraSAs, p.account); }
  }
}
