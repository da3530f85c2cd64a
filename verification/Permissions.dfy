/** Re-joining split roles with their bindings into the permissions of a CSV. */
module Permissions {
  import opened Sorting
  import opened Seqs
  import opened Collector

  datatype Permission = Permission(account: string, rules: seq<PolicyRule>)

  /** The roles a list of objects offers by name. Role bindings look a role up under the kind
      they refer to; cluster role bindings look only at cluster roles, whatever the kind. */
  datatype Lookup =
    | ByKind(roles: map<string, Role>, clusterRoles: map<string, Role>)
    | ClusterOnly(clusterRoles: map<string, Role>)

  function RulesIn(m: map<string, Role>, name: string): seq<PolicyRule> {
    if name in m then m[name].rules else []
  }

  function RulesOf(l: Lookup, ref: RoleRef): seq<PolicyRule> {
    match l
    case ByKind(roles, clusterRoles) =>
      if ref.kind.RoleKind? then RulesIn(roles, ref.name)
      else if ref.kind.ClusterRoleKind? then RulesIn(clusterRoles, ref.name)
      else []
    case ClusterOnly(clusterRoles) => RulesIn(clusterRoles, ref.name)
  }

  function CollectRoles(objs: seq<Object>): map<string, Role> {
    if objs == [] then map[]
    else
      var o, before := objs[|objs| - 1], CollectRoles(objs[..|objs| - 1]);
      if o.RoleObj? then before[o.role.name := o.role] else before
  }

  function CollectClusterRoles(objs: seq<Object>): map<string, Role> {
    if objs == [] then map[]
    else
      var o, before := objs[|objs| - 1], CollectClusterRoles(objs[..|objs| - 1]);
      if o.ClusterRoleObj? then before[o.role.name := o.role] else before
  }

  predicate IsAccount(s: Subject, account: string) { s.kind.ServiceAccountKind? && s.name == account }

  /** The rules handed to an account once for every subject that names it. */
  function SubjectRules(subjects: seq<Subject>, rules: seq<PolicyRule>, account: string): seq<PolicyRule> {
    if subjects == [] then []
    else (if IsAccount(subjects[0], account) then rules else []) + SubjectRules(subjects[1..], rules, account)
  }

  function Granted(bs: seq<Binding>, l: Lookup, account: string): seq<PolicyRule> {
    if bs == [] then []
    else SubjectRules(bs[0].subjects, RulesOf(l, bs[0].roleRef), account) + Granted(bs[1..], l, account)
  }

  lemma SubjectRulesHead(found: seq<PolicyRule>, rest: seq<Subject>, rules: seq<PolicyRule>, account: string)
    requires rest != []
    ensures found + SubjectRules(rest, rules, account)
            == (if IsAccount(rest[0], account) then found + rules else found) + SubjectRules(rest[1..], rules, account)
  {
    Assoc(found, rules, SubjectRules(rest[1..], rules, account));
  }

  method GrantSubjects(subjects: seq<Subject>, rules: seq<PolicyRule>, before: map<string, seq<PolicyRule>>)
    returns (perms: map<string, seq<PolicyRule>>)
    ensures perms.Keys == before.Keys
    ensures forall a :: a in before ==> perms[a] == before[a] + SubjectRules(subjects, rules, a)
  {
    perms := before;
    ghost var rest := subjects;
    for i := 0 to |subjects|
      invariant rest == subjects[i..] && perms.Keys == before.Keys
      invariant forall a :: a in before ==>
                  perms[a] + SubjectRules(rest, rules, a) == before[a] + SubjectRules(subjects, rules, a)
    {
      var subject := subjects[i];
      forall a | a in before
        ensures perms[a] + SubjectRules(rest, rules, a)
                == (if IsAccount(subject, a) then perms[a] + rules else perms[a]) + SubjectRules(rest[1..], rules, a)
      {
        SubjectRulesHead(perms[a], rest, rules, a);
      }
      if subject.kind.ServiceAccountKind? && subject.name in perms {
        perms := perms[subject.name := perms[subject.name] + rules];
      }
      rest := rest[1..];
    }
  }

  method GrantBindings(bs: seq<Binding>, l: Lookup, accounts: set<string>) returns (perms: map<string, seq<PolicyRule>>)
    ensures perms.Keys == accounts
    ensures forall a :: a in accounts ==> perms[a] == Granted(bs, l, a)
  {
    perms := map a | a in accounts :: [];
    ghost var rest := bs;
    for i := 0 to |bs|
      invariant rest == bs[i..] && perms.Keys == accounts
      invariant forall a :: a in accounts ==> perms[a] + Granted(rest, l, a) == Granted(bs, l, a)
    {
      ghost var before := perms;
      perms := GrantSubjects(bs[i].subjects, RulesOf(l, bs[i].roleRef), perms);
      forall a | a in accounts ensures perms[a] + Granted(rest[1..], l, a) == before[a] + Granted(rest, l, a) {
        Assoc(before[a], SubjectRules(bs[i].subjects, RulesOf(l, bs[i].roleRef), a), Granted(rest[1..], l, a));
      }
      rest := rest[1..];
    }
  }

  predicate ByAccount(p: Permission, q: Permission) { StrLeq(p.account, q.account) }

  lemma ByAccountIsTotalPreorder()
    ensures TotalPreorder(ByAccount)
  {
    StrLeqIsTotalOrder();
  }

  /** The permissions list the accounts that are granted something, in ascending order and
      once each, with everything the bindings grant them. */
  ghost predicate Describes(perms: seq<Permission>, accounts: set<string>, bs: seq<Binding>, l: Lookup) {
    && (forall i, j :: 0 <= i < j < |perms| ==> ByAccount(perms[i], perms[j]) && perms[i].account != perms[j].account)
    && (forall p :: p in perms ==> p.account in accounts && p.rules == Granted(bs, l, p.account) && p.rules != [])
    && (forall a :: a in accounts && Granted(bs, l, a) != [] ==> Permission(a, Granted(bs, l, a)) in perms)
  }

  method ListNonEmpty(m: map<string, seq<PolicyRule>>) returns (perms: seq<Permission>)
    ensures forall i, j :: 0 <= i < j < |perms| ==> perms[i].account != perms[j].account
    ensures forall p :: p in perms <==> p.account in m && p.rules == m[p.account] && p.rules != []
  {
    perms := [];
    var order := RangeOver(m);
    for i := 0 to |order|
      invariant forall p :: p in perms <==> p.account in order[..i] && p.rules == m[p.account] && p.rules != []
      invariant forall j, k :: 0 <= j < k < |perms| ==> perms[j].account != perms[k].account
    {
      assert order[i] !in order[..i];
      assert forall j :: 0 <= j < |perms| ==> perms[j] in perms;
      if |m[order[i]]| != 0 {
        perms := perms + [Permission(order[i], m[order[i]])];
      }
    }
  }

  lemma {:induction false} SortKeepsDistinct(s: seq<Permission>)
    requires forall i, j :: 0 <= i < j < |s| ==> s[i].account != s[j].account
    ensures var r := Sort(ByAccount, s);
            && (forall p :: p in r <==> p in s)
            && forall i, j :: 0 <= i < j < |r| ==> ByAccount(r[i], r[j]) && r[i].account != r[j].account
  {
    var r := Sort(ByAccount, s);
    ByAccountIsTotalPreorder();
    SortSorts(ByAccount, s);
    forall p ensures p in r <==> p in s { assert p in multiset(r) <==> p in multiset(s); }
    forall i, j | 0 <= i < j < |r| ensures r[i].account != r[j].account {
      if r[i].account == r[j].account {
        TwoPositions(r, s, i, j);
      }
    }
  }

  lemma TwoPositions(r: seq<Permission>, s: seq<Permission>, i: nat, j: nat)
    requires i < j < |r| && multiset(r) == multiset(s)
    requires forall x, y :: 0 <= x < y < |s| ==> s[x].account != s[y].account
    ensures r[i].account != r[j].account
  {
    assert r[i] in multiset(r) && r[j] in multiset(r);
    assert r[i] in s && r[j] in s;
    if r[i].account == r[j].account {
      assert r[i] == r[j];
      assert r == r[..i] + [r[i]] + r[i + 1..j] + [r[j]] + r[j + 1..];
      assert multiset(r)[r[i]] >= 2;
      CountWithoutDuplicates(s, r[i]);
    }
  }

  method SortedPermissions(bs: seq<Binding>, l: Lookup, accounts: set<string>) returns (perms: seq<Permission>)
    ensures Describes(perms, accounts, bs, l)
  {
    var saToPermissions := GrantBindings(bs, l, accounts);
    perms := ListNonEmpty(saToPermissions);
    SortKeepsDistinct(perms);
    perms := Sort(ByAccount, perms);
  }

  /** The description leaves no freedom: the order in which maps are iterated cannot show. */
  lemma {:induction false} PermissionsDetermined(p: seq<Permission>, q: seq<Permission>, accounts: set<string>,
                                                 bs: seq<Binding>, l: Lookup)
    requires Describes(p, accounts, bs, l) && Describes(q, accounts, bs, l)
    ensures p == q
  {
    SameMembers(p, q, accounts, bs, l);
    SameMembers(q, p, accounts, bs, l);
    if p != [] {
      StrLeqIsTotalOrder();
      assert p[0].account == q[0].account;
      var rest := accounts - {p[0].account};
      DescribesTail(p, accounts, bs, l);
      DescribesTail(q, accounts, bs, l);
      PermissionsDetermined(p[1..], q[1..], rest, bs, l);
    }
  }

  lemma SameMembers(p: seq<Permission>, q: seq<Permission>, accounts: set<string>, bs: seq<Binding>, l: Lookup)
    requires Describes(p, accounts, bs, l) && Describes(q, accounts, bs, l)
    ensures forall i :: 0 <= i < |q| ==> q[i] in p
    ensures q != [] ==> p != [] && q[0] in p
  {
    forall i | 0 <= i < |q| ensures q[i] in p {
      assert q[i] in q && q[i] == Permission(q[i].account, q[i].rules);
    }
    if q != [] {
      assert q[0] in p;
    }
  }

  lemma DescribesTail(p: seq<Permission>, accounts: set<string>, bs: seq<Binding>, l: Lookup)
    requires Describes(p, accounts, bs, l) && p != []
    ensures Describes(p[1..], accounts - {p[0].account}, bs, l)
  {
    var rest := p[1..];
    assert forall i :: 0 <= i < |rest| ==> rest[i] == p[i + 1];
    forall x | x in rest ensures x in p && x.account != p[0].account {
      var i :| 0 <= i < |rest| && rest[i] == x;
      assert p[0].account != p[i + 1].account;
    }
    forall a | a in accounts && a != p[0].account && Granted(bs, l, a) != []
      ensures Permission(a, Granted(bs, l, a)) in rest
    {
      assert Permission(a, Granted(bs, l, a)) in p;
    }
  }
}
