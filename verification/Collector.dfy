/** Splitting collected RBAC manifests into what goes into the CSV and what is written next to it. */
module Collector {
  import opened Seqs

  datatype PolicyRule = PolicyRule(apiGroups: seq<string>, resources: seq<string>, verbs: seq<string>)

  /** The kind strings the code compares with; every other string is `OtherKind`. */
  datatype Kind = ServiceAccountKind | RoleKind | ClusterRoleKind | OtherKind(kind: string)
  /** The group of a role reference: "", "rbac.authorization.k8s.io", or another string. */
  datatype Group = NoGroup | RbacGroup | OtherGroup(group: string)

  datatype Subject = Subject(kind: Kind, name: string)
  datatype RoleRef = RoleRef(apiGroup: Group, kind: Kind, name: string)
  datatype Role = Role(name: string, rules: seq<PolicyRule>)
  datatype Binding = Binding(name: string, roleRef: RoleRef, subjects: seq<Subject>)

  datatype Manifests = Manifests(
    deploymentAccounts: seq<string>,
    roles: seq<Role>,
    clusterRoles: seq<Role>,
    roleBindings: seq<Binding>,
    clusterRoleBindings: seq<Binding>,
    serviceAccounts: seq<string>)

  /** An element of the object lists. `NilObject` is the nil read back from a map
      that has no such entry (any more). */
  datatype Object =
    | RoleObj(role: Role)
    | ClusterRoleObj(role: Role)
    | RoleBindingObj(binding: Binding)
    | ClusterRoleBindingObj(binding: Binding)
    | ServiceAccountObj(name: string)
    | NilObject

  const DEFAULT_ACCOUNT := "default"

  predicate AcceptRefGroup(apiGroup: Group) { apiGroup.NoGroup? || apiGroup.RbacGroup? }

  function AccountOf(deploymentAccount: string): string {
    if deploymentAccount == "" then DEFAULT_ACCOUNT else deploymentAccount
  }

  /** The service accounts whose permissions belong to the CSV. */
  function CsvAccounts(m: Manifests, extraSAs: seq<string>): set<string> {
    (set a | a in m.deploymentAccounts :: AccountOf(a)) + (set a | a in extraSAs)
  }

  function Names(roles: seq<Role>): set<string> { set r | r in roles :: r.name }

  predicate Relevant(s: Subject, accounts: set<string>) { s.name in accounts && s.kind.ServiceAccountKind? }

  /** The binding refers, through an accepted group, to a known role of this kind. */
  predicate RefersTo(b: Binding, kind: Kind, names: set<string>) {
    b.roleRef.name in names && b.roleRef.kind == kind && AcceptRefGroup(b.roleRef.apiGroup)
  }

  /** The binding gives such a role to some relevant account. */
  predicate Binds(b: Binding, kind: Kind, names: set<string>, accounts: set<string>) {
    RefersTo(b, kind, names) && exists s :: s in b.subjects && Relevant(s, accounts)
  }

  /** The binding gives such a role to nobody but relevant accounts. */
  predicate Absorbed(b: Binding, kind: Kind, names: set<string>, accounts: set<string>) {
    RefersTo(b, kind, names) && forall s :: s in b.subjects ==> Relevant(s, accounts)
  }

  function BoundNames(bs: seq<Binding>, kind: Kind, names: set<string>, accounts: set<string>): seq<string> {
    if bs == [] then []
    else (if Binds(bs[0], kind, names, accounts) then [bs[0].roleRef.name] else [])
         + BoundNames(bs[1..], kind, names, accounts)
  }

  function Unabsorbed(bs: seq<Binding>, kind: Kind, names: set<string>, accounts: set<string>): seq<Binding> {
    if bs == [] then []
    else (if Absorbed(bs[0], kind, names, accounts) then [] else [bs[0]])
         + Unabsorbed(bs[1..], kind, names, accounts)
  }

  function Irrelevant(ss: seq<Subject>, accounts: set<string>): seq<Subject> {
    if ss == [] then []
    else
      var last := ss[|ss| - 1];
      Irrelevant(ss[..|ss| - 1], accounts) + if Relevant(last, accounts) then [] else [last]
  }

  lemma {:induction false} IrrelevantCounts(ss: seq<Subject>, accounts: set<string>)
    ensures |Irrelevant(ss, accounts)| <= |ss|
    ensures |Irrelevant(ss, accounts)| == 0 <==> forall s :: s in ss ==> Relevant(s, accounts)
    ensures |Irrelevant(ss, accounts)| == |ss| <==> forall s :: s in ss ==> !Relevant(s, accounts)
  {
    if ss != [] {
      var init, last := ss[..|ss| - 1], ss[|ss| - 1];
      IrrelevantCounts(init, accounts);
      MembersOfInit(ss);
      assert last in ss;
    }
  }

  lemma UnabsorbedHead(seen: seq<Binding>, rest: seq<Binding>, kind: Kind, names: set<string>, accounts: set<string>)
    requires rest != []
    ensures seen + Unabsorbed(rest, kind, names, accounts)
            == (if Absorbed(rest[0], kind, names, accounts) then seen else seen + [rest[0]])
               + Unabsorbed(rest[1..], kind, names, accounts)
  {
    Assoc(seen, [rest[0]], Unabsorbed(rest[1..], kind, names, accounts));
  }

  lemma BoundNamesHead(found: seq<string>, rest: seq<Binding>, kind: Kind, names: set<string>, accounts: set<string>)
    requires rest != []
    ensures found + BoundNames(rest, kind, names, accounts)
            == (if Binds(rest[0], kind, names, accounts) then found + [rest[0].roleRef.name] else found)
               + BoundNames(rest[1..], kind, names, accounts)
  {
    Assoc(found, [rest[0].roleRef.name], BoundNames(rest[1..], kind, names, accounts));
  }

  /** A binding under analysis; `subjects` is the backing array of its subject slice. */
  datatype PartialBinding = PartialBinding(name: string, roleRef: RoleRef, subjects: array<Subject>)

  /** Deletes cell `j` of the slice `a[..n]` by shifting its tail left inside the backing array. */
  method DeleteAt(a: array<Subject>, j: nat, n: nat)
    requires j < n <= a.Length
    modifies a
    ensures a[..n - 1] == old(a[..n])[..j] + old(a[..n])[j + 1..]
  {
    forall i | j <= i < n - 1 {
      a[i] := a[i + 1];
    }
  }

  lemma IrrelevantStep(ss: seq<Subject>, k: nat, accounts: set<string>)
    requires k < |ss|
    ensures Irrelevant(ss[..k + 1], accounts)
            == Irrelevant(ss[..k], accounts) + if Relevant(ss[k], accounts) then [] else [ss[k]]
  {
    assert ss[..k + 1][..k] == ss[..k];
  }

  /** Deletes every relevant subject. Only the first `n` cells are meaningful afterwards. */
  method RemoveRelevant(subjects: array<Subject>, accounts: set<string>) returns (n: nat, found: bool)
    modifies subjects
    ensures n <= subjects.Length
    ensures subjects[..n] == old(Irrelevant(subjects[..], accounts))
    ensures found <==> n < subjects.Length
  {
    ghost var was, kept, k := subjects[..], [], 0;
    n, found := subjects.Length, false;
    var j := 0;
    while j < n
      invariant 0 <= j <= n <= subjects.Length && k == subjects.Length - n + j
      invariant kept == Irrelevant(was[..k], accounts) && |kept| == j
      invariant subjects[..n] == kept + was[k..]
      invariant found <==> n < subjects.Length
      decreases n - j
    {
      var subject := subjects[j];
      assert subject == subjects[..n][j];
      MiddleOf(kept, was, k);
      IrrelevantStep(was, k, accounts);
      k := k + 1;
      if Relevant(subject, accounts) {
        found := true;
        DeleteAt(subjects, j, n);
        n := n - 1;
      } else {
        kept := kept + [subject];
        j := j + 1;
      }
    }
    assert was[..k] == was;
  }

  /** The partial bindings of one binding kind; elements are removed while they are scanned. */
  class PartialBindings {
    var items: seq<PartialBinding>

    ghost predicate Valid()
      reads this
    {
      forall i, j :: 0 <= i < j < |items| ==> items[i].subjects != items[j].subjects
    }

    ghost function Arrays(): set<array<Subject>>
      reads this
    {
      set i | 0 <= i < |items| :: items[i].subjects
    }

    /** The remaining elements stand, in order, for the bindings `bs`. */
    ghost predicate StandsFor(bs: seq<Binding>)
      reads this
    {
      |items| == |bs| &&
      forall i :: 0 <= i < |bs| ==> items[i].name == bs[i].name && items[i].roleRef == bs[i].roleRef
    }

    constructor (bindings: seq<Binding>)
      ensures Valid() && fresh(Arrays())
      ensures StandsFor(bindings) && forall kind :: IntactFrom(bindings, kind, 0)
    {
      items := [];
      new;
      for i := 0 to |bindings|
        invariant Valid() && StandsFor(bindings[..i])
        invariant forall k :: 0 <= k < i ==> fresh(items[k].subjects) && items[k].subjects[..] == bindings[k].subjects
      {
        var b := bindings[i];
        var copied := new Subject[|b.subjects|](k requires 0 <= k < |b.subjects| => b.subjects[k]);
        assert copied[..] == b.subjects;
        items := items + [PartialBinding(b.name, b.roleRef, copied)];
      }
      assert bindings[..|bindings|] == bindings;
    }

    /** From position `from` on, no subject list of a binding to a `kind` has been touched. */
    ghost predicate IntactFrom(bs: seq<Binding>, kind: Kind, from: nat)
      requires StandsFor(bs)
      reads this, Arrays()
    {
      forall i :: from <= i < |bs| && bs[i].roleRef.kind == kind ==> items[i].subjects[..] == bs[i].subjects
    }

    /** Drops element `i`. */
    method DropAt(i: nat, ghost bs: seq<Binding>, ghost kind: Kind, ghost other: Kind)
      requires StandsFor(bs) && Valid() && i < |bs|
      requires IntactFrom(bs, kind, i + 1)
      modifies this`items
      ensures |items| == old(|items|) - 1
      ensures Valid() && StandsFor(bs[..i] + bs[i + 1..]) && Arrays() <= old(Arrays())
      ensures IntactFrom(bs[..i] + bs[i + 1..], kind, i)
      ensures other != kind && old(IntactFrom(bs, other, 0)) ==> IntactFrom(bs[..i] + bs[i + 1..], other, 0)
    {
      ghost var was := items;
      items := items[..i] + items[i + 1..];
      forall t | 0 <= t < |items|
        ensures items[t] == was[if t < i then t else t + 1]
        ensures (bs[..i] + bs[i + 1..])[t] == bs[if t < i then t else t + 1]
      {
      }
    }

    /** Removes the relevant subjects of element `i`, touching no other subject list. */
    method Strip(i: nat, accounts: set<string>, ghost bs: seq<Binding>, ghost kind: Kind, ghost other: Kind)
      returns (n: nat, found: bool)
      requires StandsFor(bs) && Valid() && i < |bs| && bs[i].roleRef.kind == kind
      requires IntactFrom(bs, kind, i)
      modifies items[i].subjects
      ensures n == 0 <==> forall s :: s in bs[i].subjects ==> Relevant(s, accounts)
      ensures found <==> exists s :: s in bs[i].subjects && Relevant(s, accounts)
      ensures StandsFor(bs) && Valid() && IntactFrom(bs, kind, i + 1)
      ensures other != kind && old(IntactFrom(bs, other, 0)) ==> IntactFrom(bs, other, 0)
    {
      assert items[i].subjects[..] == bs[i].subjects;
      IrrelevantCounts(bs[i].subjects, accounts);
      n, found := RemoveRelevant(items[i].subjects, accounts);
      assert forall t :: 0 <= t < |bs| && t != i ==> items[t].subjects[..] == old(items[t].subjects[..]);
    }

    /** One pass of the loop body: the element at `i` stays, possibly with fewer subjects, or
        goes, in which case the next element moves to `i`. */
    method ScanAt(i: nat, refKind: Kind, roleNames: set<string>, accounts: set<string>,
                  ghost bs: seq<Binding>, ghost other: Kind)
      returns (next: nat, addRole: bool)
      requires Valid() && StandsFor(bs) && i < |bs| && IntactFrom(bs, refKind, i)
      modifies this`items, items[i].subjects
      ensures addRole <==> Binds(bs[i], refKind, roleNames, accounts)
      ensures next == if Absorbed(bs[i], refKind, roleNames, accounts) then i else i + 1
      ensures Arrays() <= old(Arrays()) && Valid()
      ensures StandsFor(if next == i then bs[..i] + bs[i + 1..] else bs)
      ensures IntactFrom(if next == i then bs[..i] + bs[i + 1..] else bs, refKind, next)
      ensures other != refKind && old(IntactFrom(bs, other, 0)) ==>
                IntactFrom(if next == i then bs[..i] + bs[i + 1..] else bs, other, 0)
    {
      var binding := items[i];
      next, addRole := i + 1, false;
      if binding.roleRef.name in roleNames && binding.roleRef.kind == refKind
        && AcceptRefGroup(binding.roleRef.apiGroup) {
        var n, found := Strip(i, accounts, bs, refKind, other);
        addRole := found;
        if n == 0 {
          DropAt(i, bs, refKind, other);
          next := i;
        }
      }
    }

    /** Names of the roles of kind `refKind` bound to a relevant account, removing the
        bindings that bind nobody else. `bs` is what the elements stand for on entry. */
    method GetRolesBound(refKind: Kind, roleNames: set<string>, accounts: set<string>,
                         ghost bs: seq<Binding>, ghost other: Kind)
      returns (inNames: seq<string>)
      requires Valid() && StandsFor(bs) && IntactFrom(bs, refKind, 0)
      modifies this, Arrays()
      ensures Valid() && Arrays() <= old(Arrays())
      ensures inNames == BoundNames(bs, refKind, roleNames, accounts)
      ensures StandsFor(Unabsorbed(bs, refKind, roleNames, accounts))
      ensures other != refKind && old(IntactFrom(bs, other, 0)) ==>
                IntactFrom(Unabsorbed(bs, refKind, roleNames, accounts), other, 0)
    {
      inNames := [];
      var i := 0;
      ghost var seen, rest, cur := [], bs, bs;
      while i < |items|
        invariant i == |seen| && cur == seen + rest
        invariant seen + Unabsorbed(rest, refKind, roleNames, accounts) == Unabsorbed(bs, refKind, roleNames, accounts)
        invariant inNames + BoundNames(rest, refKind, roleNames, accounts)
                  == BoundNames(bs, refKind, roleNames, accounts)
        invariant Valid() && Arrays() <= old(Arrays()) && StandsFor(cur)
        invariant IntactFrom(cur, refKind, i)
        invariant other != refKind && old(IntactFrom(bs, other, 0)) ==> IntactFrom(cur, other, 0)
        decreases |rest|
      {
        HeadOf(seen, rest);
        UnabsorbedHead(seen, rest, refKind, roleNames, accounts);
        BoundNamesHead(inNames, rest, refKind, roleNames, accounts);
        assert items[i].subjects in Arrays();
        var roleName := items[i].roleRef.name;
        var next, addRole := ScanAt(i, refKind, roleNames, accounts, cur, other);
        if addRole {
          inNames := inNames + [roleName];
        }
        if next == i {
          cur := cur[..i] + cur[i + 1..];
        } else {
          seen := seen + [rest[0]];
        }
        i, rest := next, rest[1..];
      }
    }
  }

  // ---- lookup maps and their iteration ----

  function LastNamed<T>(xs: seq<T>, name: T -> string): map<string, T> {
    if xs == [] then map[]
    else LastNamed(xs[..|xs| - 1], name)[name(xs[|xs| - 1]) := xs[|xs| - 1]]
  }

  const RoleName := (r: Role) => r.name
  const BindingName := (b: Binding) => b.name

  method IndexByName<T>(xs: seq<T>, name: T -> string) returns (m: map<string, T>)
    ensures m == LastNamed(xs, name)
  {
    m := map[];
    for i := 0 to |xs|
      invariant m == LastNamed(xs[..i], name)
    {
      assert xs[..i + 1][..i] == xs[..i];
      m := m[name(xs[i]) := xs[i]];
    }
    assert xs[..|xs|] == xs;
  }

  function RoleAt(m: map<string, Role>, k: string): Object {
    if k in m then RoleObj(m[k]) else NilObject
  }

  function ClusterRoleAt(m: map<string, Role>, k: string): Object {
    if k in m then ClusterRoleObj(m[k]) else NilObject
  }

  function RoleBindingAt(m: map<string, Binding>, k: string): Object {
    if k in m then RoleBindingObj(m[k]) else NilObject
  }

  function ClusterRoleBindingAt(m: map<string, Binding>, k: string): Object {
    if k in m then ClusterRoleBindingObj(m[k]) else NilObject
  }

  function Select<T>(m: map<string, T>, at: (map<string, T>, string) -> Object, keys: seq<string>): (r: seq<Object>)
    ensures |r| == |keys|
  {
    seq(|keys|, i requires 0 <= i < |keys| => at(m, keys[i]))
  }

  /** Reading role by role, deleting each role once read. */
  function TakeRoles(names: seq<string>, m: map<string, Role>): seq<Object> {
    if names == [] then []
    else [RoleAt(m, names[0])] + TakeRoles(names[1..], m - {names[0]})
  }

  function NamesOf(bs: seq<Binding>): (r: seq<string>)
    ensures |r| == |bs|
  {
    seq(|bs|, i requires 0 <= i < |bs| => bs[i].name)
  }

  function ForeignAccounts(accounts: seq<string>, csv: set<string>): seq<Object> {
    if accounts == [] then []
    else (if accounts[0] in csv then [] else [ServiceAccountObj(accounts[0])]) + ForeignAccounts(accounts[1..], csv)
  }

  // ---- the split ----

  datatype Split = Split(inPerms: seq<Object>, inCPerms: seq<Object>, out: seq<Object>)

  function BoundRoles(m: Manifests, extraSAs: seq<string>): seq<string> {
    BoundNames(m.roleBindings, RoleKind, Names(m.roles), CsvAccounts(m, extraSAs))
  }

  function BoundClusterRoles(m: Manifests, extraSAs: seq<string>): seq<string> {
    BoundNames(m.roleBindings, ClusterRoleKind, Names(m.clusterRoles), CsvAccounts(m, extraSAs))
  }

  function ClusterBoundRoles(m: Manifests, extraSAs: seq<string>): seq<string> {
    BoundNames(m.clusterRoleBindings, ClusterRoleKind, Names(m.clusterRoles), CsvAccounts(m, extraSAs))
  }

  function KeptRoleBindings(m: Manifests, extraSAs: seq<string>): seq<Binding> {
    Unabsorbed(Unabsorbed(m.roleBindings, RoleKind, Names(m.roles), CsvAccounts(m, extraSAs)),
               ClusterRoleKind, Names(m.clusterRoles), CsvAccounts(m, extraSAs))
  }

  function KeptClusterRoleBindings(m: Manifests, extraSAs: seq<string>): seq<Binding> {
    Unabsorbed(m.clusterRoleBindings, ClusterRoleKind, Names(m.clusterRoles), CsvAccounts(m, extraSAs))
  }

  /** `s` is the split of `m` when the two role maps are iterated in the given orders. */
  ghost predicate IsSplit(m: Manifests, extraSAs: seq<string>, s: Split, order: seq<string>, clusterOrder: seq<string>)
  {
    var roles := LastNamed(m.roles, RoleName);
    var clusterRoles := LastNamed(m.clusterRoles, RoleName);
    && s.inPerms == TakeRoles(BoundRoles(m, extraSAs), roles)
                    + Select(clusterRoles, ClusterRoleAt, BoundClusterRoles(m, extraSAs))
    && s.inCPerms == Select(clusterRoles, ClusterRoleAt, ClusterBoundRoles(m, extraSAs))
    && IsOrder(order, roles.Keys - Elements(BoundRoles(m, extraSAs)))
    && IsOrder(clusterOrder, clusterRoles.Keys - Elements(BoundClusterRoles(m, extraSAs)
                                                          + ClusterBoundRoles(m, extraSAs)))
    && s.out == Select(roles, RoleAt, order)
                + Select(clusterRoles, ClusterRoleAt, clusterOrder)
                + Select(LastNamed(m.roleBindings, BindingName), RoleBindingAt, NamesOf(KeptRoleBindings(m, extraSAs)))
                + Select(LastNamed(m.clusterRoleBindings, BindingName), ClusterRoleBindingAt,
                         NamesOf(KeptClusterRoleBindings(m, extraSAs)))
                + ForeignAccounts(m.serviceAccounts, CsvAccounts(m, extraSAs))
  }

  method CollectAccounts(m: Manifests, extraSAs: seq<string>) returns (csvSAs: set<string>)
    ensures csvSAs == CsvAccounts(m, extraSAs)
  {
    csvSAs := {};
    for i := 0 to |m.deploymentAccounts|
      invariant csvSAs == set a | a in m.deploymentAccounts[..i] :: AccountOf(a)
    {
      csvSAs := csvSAs + {AccountOf(m.deploymentAccounts[i])};
    }
    for i := 0 to |extraSAs|
      invariant csvSAs == (set a | a in m.deploymentAccounts :: AccountOf(a)) + set a | a in extraSAs[..i]
    {
      csvSAs := csvSAs + {extraSAs[i]};
    }
  }

  method TakeBoundRoles(names: seq<string>, roles: map<string, Role>)
    returns (objs: seq<Object>, left: map<string, Role>)
    ensures objs == TakeRoles(names, roles)
    ensures left == roles - Elements(names)
  {
    objs, left := [], roles;
    ghost var rest := names;
    for i := 0 to |names|
      invariant rest == names[i..] && left == roles - Elements(names[..i])
      invariant objs + TakeRoles(rest, left) == TakeRoles(names, roles)
    {
      Assoc(objs, [RoleAt(left, names[i])], TakeRoles(rest[1..], left - {names[i]}));
      objs := objs + [RoleAt(left, names[i])];
      left := left - {names[i]};
      rest := rest[1..];
    }
    assert names[..|names|] == names;
  }

  method AppendForeignAccounts(accounts: seq<string>, csv: set<string>) returns (objs: seq<Object>)
    ensures objs == ForeignAccounts(accounts, csv)
  {
    objs := [];
    ghost var rest := accounts;
    for i := 0 to |accounts|
      invariant rest == accounts[i..] && objs + ForeignAccounts(rest, csv) == ForeignAccounts(accounts, csv)
    {
      Assoc(objs, [ServiceAccountObj(accounts[i])], ForeignAccounts(rest[1..], csv));
      if accounts[i] !in csv {
        objs := objs + [ServiceAccountObj(accounts[i])];
      }
      rest := rest[1..];
    }
  }

  lemma {:induction false} KeysOfIndex<T>(xs: seq<T>, name: T -> string)
    ensures LastNamed(xs, name).Keys == set x | x in xs :: name(x)
  {
    if xs != [] {
      KeysOfIndex(xs[..|xs| - 1], name);
      assert xs == xs[..|xs| - 1] + [xs[|xs| - 1]];
    }
  }

  lemma KeysOfRoles(roles: seq<Role>)
    ensures LastNamed(roles, RoleName).Keys == Names(roles)
  {
    KeysOfIndex(roles, RoleName);
    assert forall r :: r in roles ==> RoleName(r) == r.name;
  }

  lemma BoundNamesOfCons(b: Binding, bs: seq<Binding>, kind: Kind, names: set<string>, accounts: set<string>)
    ensures BoundNames([b] + bs, kind, names, accounts)
            == (if Binds(b, kind, names, accounts) then [b.roleRef.name] else [])
              + BoundNames(bs, kind, names, accounts)
  {
    assert ([b] + bs)[1..] == bs;
  }

  /** Absorbing the bindings of one kind does not disturb the other kind. */
  lemma {:induction false} OtherKindUndisturbed(bs: seq<Binding>, kind: Kind, names: set<string>,
                                                other: Kind, otherNames: set<string>, accounts: set<string>)
    requires kind != other
    ensures BoundNames(Unabsorbed(bs, kind, names, accounts), other, otherNames, accounts)
            == BoundNames(bs, other, otherNames, accounts)
  {
    if bs != [] {
      OtherKindUndisturbed(bs[1..], kind, names, other, otherNames, accounts);
      var rest := Unabsorbed(bs[1..], kind, names, accounts);
      if Absorbed(bs[0], kind, names, accounts) {
        assert Unabsorbed(bs, kind, names, accounts) == rest;
        assert BoundNames(bs, other, otherNames, accounts) == BoundNames(bs[1..], other, otherNames, accounts);
      } else {
        BoundNamesOfCons(bs[0], rest, other, otherNames, accounts);
      }
    }
  }

  /** The binding names still listed after analysis. */
  method NamesLeft(p: PartialBindings, ghost bs: seq<Binding>) returns (names: seq<string>)
    requires p.StandsFor(bs)
    ensures names == NamesOf(bs)
  {
    names := seq(|p.items|, i requires 0 <= i < |p.items| reads p => p.items[i].name);
  }

  /** Which roles the role bindings give to CSV accounts, and which of them stay outside the CSV. */
  method AnalyzeRoleBindings(m: Manifests, extraSAs: seq<string>, csvSAs: set<string>)
    returns (inRoleNames: seq<string>, inCRoleNamesNScope: seq<string>, bindingsLeft: seq<string>)
    requires csvSAs == CsvAccounts(m, extraSAs)
    ensures inRoleNames == BoundRoles(m, extraSAs)
    ensures inCRoleNamesNScope == BoundClusterRoles(m, extraSAs)
    ensures bindingsLeft == NamesOf(KeptRoleBindings(m, extraSAs))
  {
    var roleNames, cRoleNames := Names(m.roles), Names(m.clusterRoles);
    var pRoleBindings := new PartialBindings(m.roleBindings);
    ghost var once := Unabsorbed(m.roleBindings, RoleKind, roleNames, csvSAs);
    inRoleNames := pRoleBindings.GetRolesBound(RoleKind, roleNames, csvSAs, m.roleBindings, ClusterRoleKind);
    inCRoleNamesNScope := pRoleBindings.GetRolesBound(ClusterRoleKind, cRoleNames, csvSAs, once, RoleKind);
    OtherKindUndisturbed(m.roleBindings, RoleKind, roleNames, ClusterRoleKind, cRoleNames, csvSAs);
    bindingsLeft := NamesLeft(pRoleBindings, Unabsorbed(once, ClusterRoleKind, cRoleNames, csvSAs));
  }

  method AnalyzeClusterRoleBindings(m: Manifests, extraSAs: seq<string>, csvSAs: set<string>)
    returns (inCRoleNamesCScope: seq<string>, cBindingsLeft: seq<string>)
    requires csvSAs == CsvAccounts(m, extraSAs)
    ensures inCRoleNamesCScope == ClusterBoundRoles(m, extraSAs)
    ensures cBindingsLeft == NamesOf(KeptClusterRoleBindings(m, extraSAs))
  {
    var cRoleNames := Names(m.clusterRoles);
    var pCRoleBindings := new PartialBindings(m.clusterRoleBindings);
    inCRoleNamesCScope := pCRoleBindings.GetRolesBound(ClusterRoleKind, cRoleNames, csvSAs, m.clusterRoleBindings,
                                                       RoleKind);
    cBindingsLeft := NamesLeft(pCRoleBindings, Unabsorbed(m.clusterRoleBindings, ClusterRoleKind, cRoleNames, csvSAs));
  }

  method SplitCSVPermissionsObjects(m: Manifests, extraSAs: seq<string>) returns (s: Split)
    ensures exists order, clusterOrder :: IsSplit(m, extraSAs, s, order, clusterOrder)
  {
    var csvSAs := CollectAccounts(m, extraSAs);
    var roleMap := IndexByName(m.roles, RoleName);
    var cRoleMap := IndexByName(m.clusterRoles, RoleName);
    var roleBindingMap := IndexByName(m.roleBindings, BindingName);
    var cRoleBindingMap := IndexByName(m.clusterRoleBindings, BindingName);
    var inRoleNames, inCRoleNamesNScope, bindingsLeft := AnalyzeRoleBindings(m, extraSAs, csvSAs);
    var inCRoleNamesCScope, cBindingsLeft := AnalyzeClusterRoleBindings(m, extraSAs, csvSAs);

    var inPerms, rolesLeft := TakeBoundRoles(inRoleNames, roleMap);
    inPerms := inPerms + Select(cRoleMap, ClusterRoleAt, inCRoleNamesNScope);
    var inCPerms := Select(cRoleMap, ClusterRoleAt, inCRoleNamesCScope);
    var cRolesLeft := cRoleMap - Elements(inCRoleNamesNScope + inCRoleNamesCScope);

    var order := RangeOver(rolesLeft);
    var clusterOrder := RangeOver(cRolesLeft);
    var foreign := AppendForeignAccounts(m.serviceAccounts, csvSAs);
    var out := Select(roleMap, RoleAt, order)
               + Select(cRoleMap, ClusterRoleAt, clusterOrder)
               + Select(roleBindingMap, RoleBindingAt, bindingsLeft)
               + Select(cRoleBindingMap, ClusterRoleBindingAt, cBindingsLeft)
               + foreign;
    s := Split(inPerms, inCPerms, out);
    assert IsSplit(m, extraSAs, s, order, clusterOrder);
  }
}
