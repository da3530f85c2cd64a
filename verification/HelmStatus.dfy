/** The status block of a Helm-managed custom resource. */
module HelmStatus {
  import opened Wrappers
  import opened Seqs

  datatype ConditionType = Initialized | Deployed | ReleaseFailed | Irreconcilable
  datatype ConditionStatus = IsTrue | IsFalse | IsUnknown
  datatype Reason =
    | NoReason
    | InstallSuccessful
    | UpgradeSuccessful
    | UninstallSuccessful
    | InstallError
    | UpgradeError
    | ReconcileError
    | UninstallError

  datatype Condition = Condition(kind: ConditionType, status: ConditionStatus, reason: Reason, message: string,
                                 time: int)
  datatype AppRelease = AppRelease(name: string, manifest: string)
  datatype Status = Status(conditions: seq<Condition>, deployedRelease: Option<AppRelease>)

  const EMPTY_STATUS := Status([], None)

  ghost predicate DistinctKinds(cs: seq<Condition>) {
    forall i, j :: 0 <= i < j < |cs| ==> cs[i].kind != cs[j].kind
  }

  function Find(cs: seq<Condition>, kind: ConditionType): Option<Condition> {
    if cs == [] then None
    else if cs[0].kind == kind then Some(cs[0])
    else Find(cs[1..], kind)
  }

  /** The condition list after setting `c` at time `now`. */
  function SetIn(cs: seq<Condition>, c: Condition, now: int): seq<Condition> {
    if cs == [] then [c.(time := now)]
    else if cs[0].kind == c.kind then
      [c.(time := if cs[0].status != c.status then now else cs[0].time)] + cs[1..]
    else [cs[0]] + SetIn(cs[1..], c, now)
  }

  function RemoveFrom(cs: seq<Condition>, kind: ConditionType): seq<Condition> {
    if cs == [] then []
    else if cs[0].kind == kind then cs[1..]
    else [cs[0]] + RemoveFrom(cs[1..], kind)
  }

  class HelmAppStatus {
    var conditions: seq<Condition>
    var deployedRelease: Option<AppRelease>

    function Value(): Status
      reads this
    {
      Status(conditions, deployedRelease)
    }

    constructor (s: Status)
      ensures Value() == s
    {
      conditions, deployedRelease := s.conditions, s.deployedRelease;
    }

    method SetCondition(condition: Condition, now: int)
      modifies this`conditions
      ensures conditions == SetIn(old(conditions), condition, now)
    {
      ghost var before, done, rest := conditions, [], conditions;
      for i := 0 to |conditions|
        invariant conditions == before == done + rest && |done| == i
        invariant done + SetIn(rest, condition, now) == SetIn(before, condition, now)
      {
        if conditions[i].kind == condition.kind {
          var t := if conditions[i].status != condition.status then now else conditions[i].time;
          UpdateHead(done, rest, condition.(time := t));
          conditions := conditions[i := condition.(time := t)];
          return;
        }
        HeadOf(done, rest);
        Assoc(done, [rest[0]], SetIn(rest[1..], condition, now));
        done, rest := done + [rest[0]], rest[1..];
      }
      assert rest == [] && done + [] == done;
      conditions := conditions + [condition.(time := now)];
    }

    method RemoveCondition(kind: ConditionType)
      modifies this`conditions
      ensures conditions == RemoveFrom(old(conditions), kind)
    {
      ghost var before, done, rest := conditions, [], conditions;
      for i := 0 to |conditions|
        invariant conditions == before == done + rest && |done| == i
        invariant done + RemoveFrom(rest, kind) == RemoveFrom(before, kind)
      {
        HeadOf(done, rest);
        if conditions[i].kind == kind {
          conditions := conditions[..i] + conditions[i + 1..];
          return;
        }
        Assoc(done, [rest[0]], RemoveFrom(rest[1..], kind));
        done, rest := done + [rest[0]], rest[1..];
      }
      assert rest == [] && done + [] == done;
    }
  }

  lemma {:induction false} FoundHasKind(cs: seq<Condition>, kind: ConditionType)
    ensures Find(cs, kind).Some? ==> Find(cs, kind).value.kind == kind && Find(cs, kind).value in cs
    ensures Find(cs, kind).None? <==> forall c :: c in cs ==> c.kind != kind
  {
    if cs != [] {
      assert cs == [cs[0]] + cs[1..];
      FoundHasKind(cs[1..], kind);
    }
  }

  /** Setting a condition affects no other kind, and moves its transition time only when its
      status changes or it was not there. */
  lemma {:induction false} FindAfterSet(cs: seq<Condition>, c: Condition, now: int, kind: ConditionType)
    ensures Find(SetIn(cs, c, now), kind) ==
            if kind != c.kind then Find(cs, kind)
            else
              var before := Find(cs, kind);
              Some(c.(time := if before.Some? && before.value.status == c.status then before.value.time else now))
  {
    if cs != [] {
      FindAfterSet(cs[1..], c, now, kind);
    }
  }

  lemma {:induction false} FindAfterRemove(cs: seq<Condition>, removed: ConditionType, kind: ConditionType)
    requires DistinctKinds(cs)
    ensures Find(RemoveFrom(cs, removed), kind) == if kind == removed then None else Find(cs, kind)
  {
    if cs != [] {
      FindAfterRemove(cs[1..], removed, kind);
      if cs[0].kind == removed {
        FoundHasKind(cs[1..], removed);
      }
    }
  }

  lemma {:induction false} SetKeepsDistinct(cs: seq<Condition>, c: Condition, now: int)
    requires DistinctKinds(cs)
    ensures DistinctKinds(SetIn(cs, c, now))
    ensures forall k :: k in SetIn(cs, c, now) ==> k.kind == c.kind || k in cs
  {
    if cs != [] && cs[0].kind != c.kind {
      SetKeepsDistinct(cs[1..], c, now);
      var t := SetIn(cs[1..], c, now);
      forall i | 0 <= i < |t| ensures t[i].kind != cs[0].kind {
        assert t[i] in t;
        if t[i] in cs[1..] {
          var j :| 0 <= j < |cs[1..]| && cs[1..][j] == t[i];
          assert cs[j + 1] == t[i];
        }
      }
    }
  }

  lemma {:induction false} RemoveKeepsDistinct(cs: seq<Condition>, kind: ConditionType)
    requires DistinctKinds(cs)
    ensures DistinctKinds(RemoveFrom(cs, kind))
    ensures forall k :: k in RemoveFrom(cs, kind) ==> k in cs
  {
    if cs != [] && cs[0].kind != kind {
      RemoveKeepsDistinct(cs[1..], kind);
      var t := RemoveFrom(cs[1..], kind);
      forall i | 0 <= i < |t| ensures t[i].kind != cs[0].kind {
        assert t[i] in t;
        var j :| 0 <= j < |cs[1..]| && cs[1..][j] == t[i];
        assert cs[j + 1] == t[i];
      }
    }
  }

  /** Setting what is already there, and removing what is not, changes nothing. */
  lemma {:induction false} SetAgain(cs: seq<Condition>, c: Condition, now: int)
    requires Find(cs, c.kind).Some? && Find(cs, c.kind).value == c.(time := Find(cs, c.kind).value.time)
    ensures SetIn(cs, c, now) == cs
  {
    assert cs == [cs[0]] + cs[1..];
    if cs[0].kind != c.kind {
      SetAgain(cs[1..], c, now);
    }
  }

  lemma {:induction false} RemoveAbsent(cs: seq<Condition>, kind: ConditionType)
    requires Find(cs, kind).None?
    ensures RemoveFrom(cs, kind) == cs
  {
    if cs != [] {
      assert cs == [cs[0]] + cs[1..];
      RemoveAbsent(cs[1..], kind);
    }
  }
}
