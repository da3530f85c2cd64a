/** Every interleaving of the parallel runner reports what the sequential runner reports. */
module ScorecardProofs {
  import opened Seqs
  import opened Scorecard

  lemma {:induction false} ActiveAfter(pcs: seq<PC>, i: nat, pc: PC)
    requires i < |pcs|
    ensures Active(pcs[i := pc]) == Active(pcs)
            - (if pcs[i].Running? || pcs[i].Sent? then 1 else 0) + (if pc.Running? || pc.Sent? then 1 else 0)
  {
    if i > 0 {
      assert pcs[i := pc][1..] == pcs[1..][i - 1 := pc];
      ActiveAfter(pcs[1..], i - 1, pc);
    } else {
      assert pcs[i := pc][1..] == pcs[1..];
    }
  }

  lemma {:induction false} ActiveAtLeast(pcs: seq<PC>, i: nat)
    requires i < |pcs| && (pcs[i].Running? || pcs[i].Sent?)
    ensures Active(pcs) > 0
  {
    if i > 0 { ActiveAtLeast(pcs[1..], i - 1); }
  }

  /** When nothing is active and everything was started, everything has ended. */
  lemma {:induction false} AllEnded(pcs: seq<PC>)
    requires Active(pcs) == 0 && forall i :: 0 <= i < |pcs| ==> !pcs[i].Idle?
    ensures forall i :: 0 <= i < |pcs| ==> pcs[i].Ended?
  {
    forall i | 0 <= i < |pcs| ensures pcs[i].Ended? {
      if pcs[i].Running? || pcs[i].Sent? { ActiveAtLeast(pcs, i); }
    }
  }

  lemma {:induction false} SentAfter<R>(pcs: seq<PC>, results: seq<R>, i: nat, pc: PC)
    requires |pcs| == |results| && i < |pcs| && (HasSent(pcs[i]) ==> HasSent(pc))
    ensures SentResults(pcs[i := pc], results)
            == SentResults(pcs, results) + if HasSent(pc) && !HasSent(pcs[i]) then multiset{results[i]} else multiset{}
  {
    if i > 0 {
      assert pcs[i := pc][1..] == pcs[1..][i - 1 := pc];
      SentAfter(pcs[1..], results[1..], i - 1, pc);
    } else {
      assert pcs[i := pc][1..] == pcs[1..];
    }
  }

  predicate AllSent(pcs: seq<PC>) { forall i :: 0 <= i < |pcs| ==> HasSent(pcs[i]) }

  predicate NoneSent(pcs: seq<PC>) { forall i :: 0 <= i < |pcs| ==> !HasSent(pcs[i]) }

  lemma SendersOfTail(pcs: seq<PC>)
    requires pcs != []
    ensures AllSent(pcs) <==> HasSent(pcs[0]) && AllSent(pcs[1..])
    ensures NoneSent(pcs) <==> !HasSent(pcs[0]) && NoneSent(pcs[1..])
  {
    assert forall i :: 1 <= i < |pcs| ==> pcs[i] == pcs[1..][i - 1];
    assert forall i :: 0 <= i < |pcs[1..]| ==> pcs[1..][i] == pcs[i + 1];
  }

  lemma {:induction false} SentBound<R>(pcs: seq<PC>, results: seq<R>)
    requires |pcs| == |results|
    ensures |SentResults(pcs, results)| <= |pcs|
    ensures !AllSent(pcs) ==> |SentResults(pcs, results)| < |pcs|
    ensures AllSent(pcs) ==> SentResults(pcs, results) == multiset(results)
    ensures NoneSent(pcs) ==> SentResults(pcs, results) == multiset{}
  {
    if pcs != [] {
      SentBound(pcs[1..], results[1..]);
      assert results == [results[0]] + results[1..];
      SendersOfTail(pcs);
    }
  }

  lemma {:induction false} ActiveOfIdle(n: nat)
    ensures Active(seq(n, _ => Idle)) == 0
  {
    if n > 0 {
      assert seq(n, _ => Idle)[1..] == seq(n - 1, _ => Idle);
      ActiveOfIdle(n - 1);
    }
  }

  // ---- every action keeps the state valid ----

  lemma EnterEmptyKeeps<R>(cfg: seq<Stage<R>>, s: State<R>)
    requires Valid(cfg, s) && Enabled(cfg, s, EnterStage) && cfg[s.stage].results == []
    ensures Valid(cfg, Take(cfg, s, EnterStage))
  {
    assert cfg[..s.stage + 1][..s.stage] == cfg[..s.stage];
    assert s.items[..|s.items| - 0] == s.items;
  }

  lemma EnterKeeps<R>(cfg: seq<Stage<R>>, s: State<R>)
    requires Valid(cfg, s) && Enabled(cfg, s, EnterStage) && cfg[s.stage].results != []
    ensures Valid(cfg, Take(cfg, s, EnterStage))
  {
    var st := cfg[s.stage];
    var s' := Take(cfg, s, EnterStage);
    ActiveOfIdle(|st.results|);
    SentBound(s'.pcs, st.results);
    assert s'.items[..s'.base] == s.items;
    assert Output(s') == [];
    assert st.results[..0] == [];
    assert StartedUpTo(s'.pcs, 0);
  }

  /** Only the goroutines of a parallel stage move. */
  lemma StartedIsParallel<R>(cfg: seq<Stage<R>>, s: State<R>, i: nat)
    requires Valid(cfg, s) && s.stage < |cfg| && !s.main.AtStage? && i < |s.pcs| && !s.pcs[i].Idle?
    ensures cfg[s.stage].parallel
  {
  }

  lemma StartedAfter(pcs: seq<PC>, i: nat, pc: PC, k: nat)
    requires StartedUpTo(pcs, k) && i < |pcs| && !pcs[i].Idle? && !pc.Idle?
    ensures StartedUpTo(pcs[i := pc], k)
  {
  }

  lemma SendKeeps<R>(cfg: seq<Stage<R>>, s: State<R>, i: nat)
    requires Valid(cfg, s) && Enabled(cfg, s, Send(i))
    ensures Valid(cfg, Take(cfg, s, Send(i)))
  {
    StartedIsParallel(cfg, s, i);
    SendKeepsParallel(cfg[s.stage], s, Take(cfg, s, Send(i)), i);
  }

  lemma SendKeepsParallel<R>(st: Stage<R>, s: State<R>, s': State<R>, i: nat)
    requires s.base <= |s.items| && |s.pcs| == |st.results| && ParallelInv(st, s)
    requires i < |s.pcs| && s.pcs[i].Running?
    requires s' == s.(buffer := s.buffer + [st.results[i]], pcs := s.pcs[i := Sent])
    ensures ParallelInv(st, s')
  {
    ActiveAfter(s.pcs, i, Sent);
    SentAfter(s.pcs, st.results, i, Sent);
    assert Output(s') == Output(s) + [st.results[i]];
    StartedAfter(s.pcs, i, Sent, if s.main.Adding? || s.main.Starting? then s.main.k else |s.pcs|);
  }

  lemma CountOutKeeps<R>(cfg: seq<Stage<R>>, s: State<R>, i: nat)
    requires Valid(cfg, s) && Enabled(cfg, s, CountOut(i))
    ensures Valid(cfg, Take(cfg, s, CountOut(i)))
  {
    StartedIsParallel(cfg, s, i);
    CountOutKeepsParallel(cfg[s.stage], s, Take(cfg, s, CountOut(i)), i);
  }

  lemma CountOutKeepsParallel<R>(st: Stage<R>, s: State<R>, s': State<R>, i: nat)
    requires s.base <= |s.items| && |s.pcs| == |st.results| && ParallelInv(st, s)
    requires i < |s.pcs| && s.pcs[i].Sent? && s.counter > 0
    requires s' == s.(counter := s.counter - 1, pcs := s.pcs[i := Ended])
    ensures ParallelInv(st, s')
  {
    ActiveAtLeast(s.pcs, i);
    ActiveAfter(s.pcs, i, Ended);
    SentAfter(s.pcs, st.results, i, Ended);
    StartedAfter(s.pcs, i, Ended, if s.main.Adding? || s.main.Starting? then s.main.k else |s.pcs|);
  }

  lemma StartKeeps<R>(cfg: seq<Stage<R>>, s: State<R>)
    requires Valid(cfg, s) && Enabled(cfg, s, Start)
    ensures Valid(cfg, Take(cfg, s, Start))
  {
    ActiveAfter(s.pcs, s.main.k, Running);
    SentAfter(s.pcs, cfg[s.stage].results, s.main.k, Running);
  }

  lemma MainKeeps<R>(cfg: seq<Stage<R>>, s: State<R>, a: Action)
    requires Valid(cfg, s) && Enabled(cfg, s, a)
    requires a.CountIn? || a.BeginWait? || a.EndWait? || a.Close?
    ensures Valid(cfg, Take(cfg, s, a))
  {
    var st := cfg[s.stage];
    assert st.results[..|st.results|] == st.results;
  }

  lemma SendInlineKeeps<R>(cfg: seq<Stage<R>>, s: State<R>)
    requires Valid(cfg, s) && Enabled(cfg, s, SendInline)
    ensures Valid(cfg, Take(cfg, s, SendInline))
  {
    var st := cfg[s.stage];
    var s' := Take(cfg, s, SendInline);
    assert Output(s') == Output(s) + [st.results[s.main.k]];
    assert st.results[..s.main.k + 1] == st.results[..s.main.k] + [st.results[s.main.k]];
  }

  lemma ReceiveKeeps<R>(cfg: seq<Stage<R>>, s: State<R>)
    requires Valid(cfg, s) && Enabled(cfg, s, Receive)
    ensures Valid(cfg, Take(cfg, s, Receive))
  {
    var s' := Take(cfg, s, Receive);
    assert s'.items[..s'.base] == s.items[..s.base];
    assert Output(s') == Output(s);
  }

  lemma LeaveKeeps<R>(cfg: seq<Stage<R>>, s: State<R>)
    requires Valid(cfg, s) && Enabled(cfg, s, LeaveStage)
    ensures Valid(cfg, Take(cfg, s, LeaveStage))
  {
    var st := cfg[s.stage];
    var out := s.items[s.base..];
    assert Output(s) == out;
    if st.parallel {
      AllEnded(s.pcs);
      SentBound(s.pcs, st.results);
      assert |multiset(out)| == |multiset(st.results)|;
    }
    assert Reports(st, out) && |out| == |st.results|;
    assert cfg[..s.stage + 1][..s.stage] == cfg[..s.stage];
    assert s.items[..|s.items| - |st.results|] == s.items[..s.base] && s.items[|s.items| - |st.results|..] == out;
  }

  lemma ActionKeeps<R>(cfg: seq<Stage<R>>, s: State<R>, a: Action)
    requires Valid(cfg, s) && Enabled(cfg, s, a)
    ensures Valid(cfg, Take(cfg, s, a))
  {
    match a
    case EnterStage =>
      if cfg[s.stage].results == [] { EnterEmptyKeeps(cfg, s); } else { EnterKeeps(cfg, s); }
    case CountIn => MainKeeps(cfg, s, a);
    case Start => StartKeeps(cfg, s);
    case SendInline => SendInlineKeeps(cfg, s);
    case BeginWait => MainKeeps(cfg, s, a);
    case Send(i) => SendKeeps(cfg, s, i);
    case CountOut(i) => CountOutKeeps(cfg, s, i);
    case EndWait => MainKeeps(cfg, s, a);
    case Close => MainKeeps(cfg, s, a);
    case Receive => ReceiveKeeps(cfg, s);
    case LeaveStage => LeaveKeeps(cfg, s);
  }

  lemma {:induction false} ExecutionValid<R(!new)>(cfg: seq<Stage<R>>, ss: seq<State<R>>, i: nat)
    requires IsExecution(cfg, ss) && i < |ss|
    ensures Valid(cfg, ss[i])
  {
    if i > 0 {
      ExecutionValid(cfg, ss, i - 1);
      assert Follows(cfg, ss[i - 1], ss[i - 1 + 1]);
      var a :| Enabled(cfg, ss[i - 1], a) && Take(cfg, ss[i - 1], a) == ss[i];
      ActionKeeps(cfg, ss[i - 1], a);
    }
  }

  // ---- theorems about every interleaving ----

  /** A goroutine that wants to send always can: there is room and the channel is open. The
      same holds for the main goroutine of a sequential stage. */
  lemma SendNeverBlocks<R(!new)>(cfg: seq<Stage<R>>, ss: seq<State<R>>, t: nat, i: nat)
    requires IsExecution(cfg, ss) && t < |ss| && !ss[t].main.AtStage?
    ensures i < |ss[t].pcs| && ss[t].pcs[i].Running? ==> Enabled(cfg, ss[t], Send(i))
    ensures ss[t].main.Sending? && ss[t].main.k < Size(cfg, ss[t]) ==> Enabled(cfg, ss[t], SendInline)
  {
    var s := ss[t];
    ExecutionValid(cfg, ss, t);
    var st := cfg[s.stage];
    SentBound(s.pcs, st.results);
    assert |multiset(Output(s))| == |Output(s)| >= |s.buffer|;
    if i < |s.pcs| && s.pcs[i].Running? {
      ActiveAtLeast(s.pcs, i);
    }
  }

  /** The channel is closed only after every send. */
  lemma ClosedAfterAllSends<R(!new)>(cfg: seq<Stage<R>>, ss: seq<State<R>>, t: nat)
    requires IsExecution(cfg, ss) && t < |ss| && !ss[t].main.AtStage? && ss[t].closed
    ensures ss[t].stage < |cfg| && |ss[t].pcs| == |cfg[ss[t].stage].results|
    ensures cfg[ss[t].stage].parallel ==> forall i :: 0 <= i < |ss[t].pcs| ==> ss[t].pcs[i].Ended?
    ensures ss[t].base <= |ss[t].items| && Reports(cfg[ss[t].stage], Output(ss[t]))
  {
    var s := ss[t];
    ExecutionValid(cfg, ss, t);
    if cfg[s.stage].parallel {
      AllEnded(s.pcs);
      SentBound(s.pcs, cfg[s.stage].results);
    }
  }

  /** There is always something to do until all stages are done: no deadlock. */
  lemma NoDeadlock<R(!new)>(cfg: seq<Stage<R>>, ss: seq<State<R>>, t: nat)
    requires IsExecution(cfg, ss) && t < |ss| && !Finished(cfg, ss[t])
    ensures exists a :: Enabled(cfg, ss[t], a)
  {
    var s := ss[t];
    ExecutionValid(cfg, ss, t);
    match s.main
    case AtStage => assert Enabled(cfg, s, EnterStage);
    case Adding(k) => assert Enabled(cfg, s, if k < |s.pcs| then CountIn else BeginWait);
    case Starting(_) => assert Enabled(cfg, s, Start);
    case Sending(k) =>
      SendNeverBlocks(cfg, ss, t, 0);
      assert Enabled(cfg, s, if k < |s.pcs| then SendInline else BeginWait);
    case Waiting =>
      if s.counter == 0 {
        assert Enabled(cfg, s, EndWait);
      } else {
        var i := SomeActive(s.pcs);
        SendNeverBlocks(cfg, ss, t, i);
        assert Enabled(cfg, s, if s.pcs[i].Running? then Send(i) else CountOut(i));
      }
    case Closing => assert Enabled(cfg, s, Close);
    case Draining => assert Enabled(cfg, s, if s.buffer != [] then Receive else LeaveStage);
  }

  lemma {:induction false} SomeActive(pcs: seq<PC>) returns (i: nat)
    requires Active(pcs) > 0
    ensures i < |pcs| && (pcs[i].Running? || pcs[i].Sent?)
  {
    if pcs[0].Running? || pcs[0].Sent? {
      i := 0;
    } else {
      i := SomeActive(pcs[1..]);
      i := i + 1;
    }
  }

  // ---- every execution is finite ----

  function PcWork(pc: PC): nat {
    match pc case Idle => 3 case Running => 2 case Sent => 1 case Ended => 0
  }

  function PcsWork(pcs: seq<PC>): nat {
    if pcs == [] then 0 else PcWork(pcs[0]) + PcsWork(pcs[1..])
  }

  /** Steps the main goroutine still has in this stage, other than receiving. */
  function MainWork(main: Main, n: nat): int {
    match main
    case AtStage => 0
    case Adding(k) => 2 * (n - k) + 4
    case Starting(k) => 2 * (n - k) + 3
    case Sending(k) => 2 * (n - k) + 4
    case Waiting => 3
    case Closing => 2
    case Draining => 1
  }

  /** What is left of the current stage: unsent results count twice, buffered ones once. */
  function StageWork<R>(cfg: seq<Stage<R>>, s: State<R>): int {
    if s.main.AtStage? then 0
    else MainWork(s.main, Size(cfg, s)) + 2 * PcsWork(s.pcs) + |s.buffer|
  }

  lemma {:induction false} PcsWorkAfter(pcs: seq<PC>, i: nat, pc: PC)
    requires i < |pcs|
    ensures PcsWork(pcs[i := pc]) == PcsWork(pcs) - PcWork(pcs[i]) + PcWork(pc)
  {
    if i > 0 {
      assert pcs[i := pc][1..] == pcs[1..][i - 1 := pc];
      PcsWorkAfter(pcs[1..], i - 1, pc);
    } else {
      assert pcs[i := pc][1..] == pcs[1..];
    }
  }

  /** Steps enough for the stages from `k` on. */
  function Budget<R>(cfg: seq<Stage<R>>, k: nat): nat
    requires k <= |cfg|
    decreases |cfg| - k
  {
    if k == |cfg| then 0 else 8 * |cfg[k].results| + 5 + Budget(cfg, k + 1)
  }

  /** Steps enough to finish the run from here. */
  function StepsLeft<R>(cfg: seq<Stage<R>>, s: State<R>): int
    requires s.stage <= |cfg|
  {
    if s.main.AtStage? || s.stage == |cfg| then Budget(cfg, s.stage)
    else StageWork(cfg, s) + Budget(cfg, s.stage + 1)
  }

  lemma WorkIsPositive<R>(cfg: seq<Stage<R>>, s: State<R>)
    requires Valid(cfg, s) && !s.main.AtStage?
    ensures StageWork(cfg, s) > 0
  {
  }

  lemma {:induction false} WorkOfIdle(n: nat)
    ensures PcsWork(seq(n, _ => Idle)) == 3 * n
  {
    if n > 0 {
      assert seq(n, _ => Idle)[1..] == seq(n - 1, _ => Idle);
      WorkOfIdle(n - 1);
    }
  }

  lemma GoroutineProgresses<R>(cfg: seq<Stage<R>>, s: State<R>, a: Action)
    requires Valid(cfg, s) && Enabled(cfg, s, a) && (a.Send? || a.CountOut? || a.Start?) && !s.main.AtStage?
    ensures StepsLeft(cfg, Take(cfg, s, a)) < StepsLeft(cfg, s)
  {
    match a
    case Send(i) => PcsWorkAfter(s.pcs, i, Sent);
    case CountOut(i) => PcsWorkAfter(s.pcs, i, Ended);
    case Start => PcsWorkAfter(s.pcs, s.main.k, Running);
  }

  lemma ActionProgresses<R>(cfg: seq<Stage<R>>, s: State<R>, a: Action)
    requires Valid(cfg, s) && Enabled(cfg, s, a)
    ensures StepsLeft(cfg, Take(cfg, s, a)) < StepsLeft(cfg, s)
  {
    match a
    case EnterStage => WorkOfIdle(|cfg[s.stage].results|);
    case Send(_) => GoroutineProgresses(cfg, s, a);
    case CountOut(_) => GoroutineProgresses(cfg, s, a);
    case Start => GoroutineProgresses(cfg, s, a);
    case LeaveStage => WorkIsPositive(cfg, s);
    case _ =>
  }

  /** Every execution ends: it takes at most `Budget(cfg, 0)` steps. As a run that is not over
      can always take a step, every run that goes on as long as it can is over in the end. */
  lemma {:induction false} ExecutionsEnd<R(!new)>(cfg: seq<Stage<R>>, ss: seq<State<R>>)
    requires IsExecution(cfg, ss)
    ensures |ss| - 1 <= Budget(cfg, 0)
  {
    StepsTaken(cfg, ss, |ss| - 1);
    ExecutionValid(cfg, ss, |ss| - 1);
    var s := ss[|ss| - 1];
    if !s.main.AtStage? { WorkIsPositive(cfg, s); }
  }

  lemma {:induction false} StepsTaken<R(!new)>(cfg: seq<Stage<R>>, ss: seq<State<R>>, i: nat)
    requires IsExecution(cfg, ss) && i < |ss|
    ensures ss[i].stage <= |cfg| && i + StepsLeft(cfg, ss[i]) <= Budget(cfg, 0)
  {
    ExecutionValid(cfg, ss, i);
    if i > 0 {
      StepsTaken(cfg, ss, i - 1);
      ExecutionValid(cfg, ss, i - 1);
      assert Follows(cfg, ss[i - 1], ss[i - 1 + 1]);
      var a :| Enabled(cfg, ss[i - 1], a) && Take(cfg, ss[i - 1], a) == ss[i];
      ActionProgresses(cfg, ss[i - 1], a);
    }
  }

  /** Refinement: when a run is over, its items are, stage by stage and never interleaved, what
      running each stage sequentially reports, up to the order within a parallel stage. */
  lemma {:induction false} RunRefinesSequential<R(!new)>(cfg: seq<Stage<R>>, ss: seq<State<R>>)
    requires IsExecution(cfg, ss) && Finished(cfg, ss[|ss| - 1])
    ensures StageByStage(cfg, ss[|ss| - 1].items)
    ensures multiset(ss[|ss| - 1].items) == multiset(SequentialItems(cfg))
    ensures (forall i :: 0 <= i < |cfg| ==> !cfg[i].parallel) ==> ss[|ss| - 1].items == SequentialItems(cfg)
  {
    ExecutionValid(cfg, ss, |ss| - 1);
    assert cfg[..|cfg|] == cfg;
    StageByStageItems(cfg, ss[|ss| - 1].items);
  }

  /** What running every stage sequentially reports. */
  function SequentialItems<R>(stages: seq<Stage<R>>): seq<R> {
    if stages == [] then [] else SequentialItems(stages[..|stages| - 1]) + stages[|stages| - 1].results
  }

  lemma {:induction false} StageByStageItems<R>(stages: seq<Stage<R>>, items: seq<R>)
    requires StageByStage(stages, items)
    ensures multiset(items) == multiset(SequentialItems(stages))
    ensures (forall i :: 0 <= i < |stages| ==> !stages[i].parallel) ==> items == SequentialItems(stages)
  {
    if stages != [] {
      var last := |stages| - 1;
      var k := |items| - |stages[last].results|;
      assert items == items[..k] + items[k..];
      StageByStageItems(stages[..last], items[..k]);
    }
  }

  // ---- the sequential run ----

  function Stages<R>(cs: seq<StageConfig>, s: Selector, path: string, run: TestConfig -> R): seq<Stage<R>> {
    seq(|cs|, i requires 0 <= i < |cs| => StageOf(cs[i], s, path, run))
  }

  /** One stage, run sequentially: selects the tests, fills in defaults, runs and drains. */
  method RunStage<R>(c: StageConfig, s: Selector, path: string, run: TestConfig -> R) returns (out: seq<R>)
    ensures out == StageOf(c, s, path, run).results
  {
    var selected := SelectTests(s, c);
    out := [];
    if |selected| == 0 { return; }
    var tests := new TestConfig[|selected|](i requires 0 <= i < |selected| => selected[i]);
    SetTestDefaults(tests, path);
    var results := new Channel<R>(tests.Length);
    RunStageSequential(tests[..], run, results);
    results.closed := true;
    ghost var sent := results.buffer;
    assert sent == StageOf(c, s, path, run).results;
    while results.buffer != []
      invariant out + results.buffer == sent
      decreases |results.buffer|
    {
      HeadOf(out, results.buffer);
      out := out + [results.buffer[0]];
      results.buffer := results.buffer[1..];
    }
  }

  /** Running every stage sequentially, whatever its `parallel` says, puts out `SequentialItems`. */
  method RunSequentially<R>(cs: seq<StageConfig>, s: Selector, path: string, run: TestConfig -> R)
    returns (items: seq<R>)
    ensures items == SequentialItems(Stages(cs, s, path, run))
  {
    items := [];
    for i := 0 to |cs|
      invariant items == SequentialItems(Stages(cs, s, path, run)[..i])
    {
      var out := RunStage(cs[i], s, path, run);
      items := items + out;
      assert Stages(cs, s, path, run)[..i + 1][..i] == Stages(cs, s, path, run)[..i];
    }
    assert Stages(cs, s, path, run)[..|cs|] == Stages(cs, s, path, run);
  }

  // ---- which tests are run, and with what ----

  /** The test has labels that the selector matches; the absent selector matches all. */
  ghost predicate IsSelected(s: Selector, t: TestConfig) {
    match s
    case MatchAll => true
    case MatchSome(matches) => matches(t.labels)
  }

  ghost predicate Ascending(ps: seq<nat>) { forall i, j :: 0 <= i < j < |ps| ==> ps[i] < ps[j] }

  /** The positions of the selected tests. */
  ghost predicate Positions(s: Selector, tests: seq<TestConfig>, ps: seq<nat>) {
    && Ascending(ps)
    && (forall i :: 0 <= i < |ps| ==> ps[i] < |tests| && IsSelected(s, tests[ps[i]]))
    && forall k :: 0 <= k < |tests| && IsSelected(s, tests[k]) ==> k in ps
  }

  function PositionsFrom(s: Selector, tests: seq<TestConfig>, from: nat): seq<nat>
    decreases |tests|
  {
    if tests == [] then []
    else (if Selects(s, tests[0]) then [from] else []) + PositionsFrom(s, tests[1..], from + 1)
  }

  lemma {:induction false} PositionsInOrder(s: Selector, tests: seq<TestConfig>, from: nat)
    ensures var ps := PositionsFrom(s, tests, from);
            Ascending(ps) && forall i :: 0 <= i < |ps| ==> from <= ps[i] < from + |tests|
    decreases |tests|
  {
    if tests != [] { PositionsInOrder(s, tests[1..], from + 1); }
  }

  /** These are the tests at these positions, counted from `from`. */
  ghost predicate At(tests: seq<TestConfig>, from: nat, ps: seq<nat>, chosen: seq<TestConfig>) {
    && |chosen| == |ps|
    && forall i :: 0 <= i < |ps| ==> from <= ps[i] < from + |tests| && chosen[i] == tests[ps[i] - from]
  }

  lemma AtHead(tests: seq<TestConfig>, from: nat, ps: seq<nat>, chosen: seq<TestConfig>)
    requires tests != [] && At(tests[1..], from + 1, ps, chosen)
    ensures At(tests, from, [from] + ps, [tests[0]] + chosen) && At(tests, from, [] + ps, [] + chosen)
  {
    forall i | 0 <= i < |ps| ensures tests[1..][ps[i] - (from + 1)] == tests[ps[i] - from] {}
  }

  lemma {:induction false} PositionsSelect(s: Selector, tests: seq<TestConfig>, from: nat)
    ensures At(tests, from, PositionsFrom(s, tests, from), Selected(s, tests))
    decreases |tests|
  {
    if tests != [] {
      PositionsSelect(s, tests[1..], from + 1);
      AtHead(tests, from, PositionsFrom(s, tests[1..], from + 1), Selected(s, tests[1..]));
    }
  }

  lemma {:induction false} PositionsAll(s: Selector, tests: seq<TestConfig>, from: nat, k: nat)
    requires k < |tests|
    ensures from + k in PositionsFrom(s, tests, from) <==> IsSelected(s, tests[k])
    decreases |tests|
  {
    PositionsInOrder(s, tests[1..], from + 1);
    if k > 0 { PositionsAll(s, tests[1..], from + 1, k - 1); }
  }

  lemma {:induction false} SelectedPositions(s: Selector, tests: seq<TestConfig>) returns (ps: seq<nat>)
    ensures Positions(s, tests, ps) && |Selected(s, tests)| == |ps|
    ensures forall i :: 0 <= i < |ps| ==> Selected(s, tests)[i] == tests[ps[i]]
  {
    ps := PositionsFrom(s, tests, 0);
    PositionsInOrder(s, tests, 0);
    PositionsSelect(s, tests, 0);
    forall k | 0 <= k < |tests| ensures k in ps <==> IsSelected(s, tests[k]) { PositionsAll(s, tests, 0, k); }
    forall i | 0 <= i < |ps| ensures IsSelected(s, tests[ps[i]]) { assert ps[i] in ps; }
  }

  /** A stage reports, for each selected test in order, what it reports when run with the given
      path in place of an empty one; and whether it is parallel is what its configuration says. */
  lemma StageReports<R>(c: StageConfig, s: Selector, path: string, run: TestConfig -> R) returns (ps: seq<nat>)
    ensures Positions(s, c.tests, ps)
    ensures var st := StageOf(c, s, path, run);
            && st.parallel == c.parallel && |st.results| == |ps|
            && forall i :: 0 <= i < |ps| ==>
                 var t := c.tests[ps[i]];
                 st.results[i] == run(TestConfig(t.labels, t.image, if t.mountPath == "" then path else t.mountPath))
  {
    ps := SelectedPositions(s, c.tests);
    var st := StageOf(c, s, path, run);
    forall i | 0 <= i < |ps|
      ensures var t := c.tests[ps[i]];
              st.results[i] == run(TestConfig(t.labels, t.image, if t.mountPath == "" then path else t.mountPath))
    {
      assert st.results[i] == run(WithDefault(Selected(s, c.tests)[i], path));
      var t := c.tests[ps[i]];
      assert WithDefault(t, path) == TestConfig(t.labels, t.image, if t.mountPath == "" then path else t.mountPath);
    }
  }
}
