/** Running the stages of a scorecard: sequentially, or with one goroutine per test. */
module Scorecard {
  import opened Seqs

  // ---- selecting tests ----

  /** A test: its labels, the image it runs and the path its storage is mounted at. */
  datatype TestConfig = TestConfig(labels: map<string, string>, image: string, mountPath: string)

  datatype StageConfig = StageConfig(parallel: bool, tests: seq<TestConfig>)

  /** A label selector; the absent and the empty selector match everything. */
  datatype Selector = MatchAll | MatchSome(matches: map<string, string> -> bool)

  predicate Selects(s: Selector, t: TestConfig) { s.MatchAll? || s.matches(t.labels) }

  function Selected(s: Selector, tests: seq<TestConfig>): seq<TestConfig> {
    if tests == [] then []
    else (if Selects(s, tests[0]) then [tests[0]] else []) + Selected(s, tests[1..])
  }

  function WithDefault(t: TestConfig, path: string): TestConfig {
    if t.mountPath == "" then t.(mountPath := path) else t
  }

  method SelectTests(s: Selector, stage: StageConfig) returns (selected: seq<TestConfig>)
    ensures selected == Selected(s, stage.tests)
  {
    selected := [];
    ghost var rest := stage.tests;
    for i := 0 to |stage.tests|
      invariant rest == stage.tests[i..] && selected + Selected(s, rest) == Selected(s, stage.tests)
    {
      Assoc(selected, [stage.tests[i]], Selected(s, rest[1..]));
      if Selects(s, stage.tests[i]) {
        selected := selected + [stage.tests[i]];
      }
      rest := rest[1..];
    }
  }

  /** Fills in the default mount path, in place. */
  method SetTestDefaults(tests: array<TestConfig>, path: string)
    modifies tests
    ensures forall i :: 0 <= i < tests.Length ==> tests[i] == WithDefault(old(tests[i]), path)
  {
    for i := 0 to tests.Length
      invariant forall j :: 0 <= j < i ==> tests[j] == WithDefault(old(tests[j]), path)
      invariant forall j :: i <= j < tests.Length ==> tests[j] == old(tests[j])
    {
      if |tests[i].mountPath| == 0 {
        tests[i] := tests[i].(mountPath := path);
      }
    }
  }

  /** A stage ready to run: how, and what each selected test will report when it is run. */
  datatype Stage<R> = Stage(parallel: bool, results: seq<R>)

  function StageOf<R>(c: StageConfig, s: Selector, path: string, run: TestConfig -> R): Stage<R> {
    var tests := Selected(s, c.tests);
    Stage(c.parallel, seq(|tests|, i requires 0 <= i < |tests| => run(WithDefault(tests[i], path))))
  }

  // ---- the sequential runner ----

  /** A buffered channel. Sending on a full channel blocks and on a closed one panics. */
  class Channel<R> {
    const capacity: nat
    var buffer: seq<R>
    var closed: bool

    constructor (capacity: nat)
      ensures this.capacity == capacity && buffer == [] && !closed
    {
      this.capacity, buffer, closed := capacity, [], false;
    }

    method Send(r: R)
      requires !closed && |buffer| < capacity
      modifies this`buffer
      ensures buffer == old(buffer) + [r]
    {
      buffer := buffer + [r];
    }
  }

  /** Runs the tests one after the other; no send ever blocks. */
  method RunStageSequential<R>(tests: seq<TestConfig>, run: TestConfig -> R, results: Channel<R>)
    requires results.buffer == [] && !results.closed && results.capacity == |tests|
    modifies results
    ensures results.buffer == seq(|tests|, i requires 0 <= i < |tests| => run(tests[i])) && !results.closed
  {
    for i := 0 to |tests|
      invariant !results.closed && |results.buffer| == i
      invariant forall j :: 0 <= j < i ==> results.buffer[j] == run(tests[j])
    {
      results.Send(run(tests[i]));
    }
  }

  // ---- all interleavings ----

  /** Where the main goroutine is. `AtStage` looks at the next stage; `Adding(k)` is about to
      count test `k` in and `Starting(k)` to start its goroutine; `Sending(k)` runs test `k`
      itself. */
  datatype Main = AtStage | Adding(k: nat) | Starting(k: nat) | Sending(k: nat) | Waiting | Closing | Draining

  /** Where the goroutine of a test is: not started, before its send, before counting itself
      out, ended. */
  datatype PC = Idle | Running | Sent | Ended

  /** `counter` is the wait group; `base` is how many items were there when the stage began. */
  datatype State<R> = State(
    stage: nat,
    main: Main,
    pcs: seq<PC>,
    counter: nat,
    buffer: seq<R>,
    closed: bool,
    items: seq<R>,
    base: nat)

  datatype Action =
    | EnterStage
    | CountIn
    | Start
    | SendInline
    | BeginWait
    | Send(i: nat)
    | CountOut(i: nat)
    | EndWait
    | Close
    | Receive
    | LeaveStage

  function Initial<R>(): State<R> { State(0, AtStage, [], 0, [], true, [], 0) }

  predicate Finished<R>(cfg: seq<Stage<R>>, s: State<R>) { s.stage == |cfg| }

  function Size<R>(cfg: seq<Stage<R>>, s: State<R>): nat { if s.stage < |cfg| then |cfg[s.stage].results| else 0 }

  /** Whether an action can be taken. A send needs room in the buffer. */
  predicate Enabled<R>(cfg: seq<Stage<R>>, s: State<R>, a: Action) {
    s.stage < |cfg| &&
    var n := |cfg[s.stage].results|;
    match a
    case EnterStage => s.main.AtStage?
    case CountIn => s.main.Adding? && s.main.k < n
    case Start => s.main.Starting? && s.main.k < |s.pcs|
    case SendInline => s.main.Sending? && s.main.k < n && |s.buffer| < n && !s.closed
    case BeginWait => (s.main.Adding? || s.main.Sending?) && s.main.k == n
    case Send(i) => i < |s.pcs| && i < n && s.pcs[i].Running? && |s.buffer| < n && !s.closed
    case CountOut(i) => i < |s.pcs| && s.pcs[i].Sent? && s.counter > 0
    case EndWait => s.main.Waiting? && s.counter == 0
    case Close => s.main.Closing?
    case Receive => s.main.Draining? && s.buffer != []
    case LeaveStage => s.main.Draining? && s.buffer == []
  }

  function Take<R>(cfg: seq<Stage<R>>, s: State<R>, a: Action): State<R>
    requires Enabled(cfg, s, a)
  {
    var st := cfg[s.stage];
    match a
    case EnterStage =>
      if st.results == [] then s.(stage := s.stage + 1)
      else s.(main := if st.parallel then Adding(0) else Sending(0),
              pcs := seq(|st.results|, _ => Idle), counter := 0, buffer := [], closed := false, base := |s.items|)
    case CountIn => s.(counter := s.counter + 1, main := Starting(s.main.k))
    case Start => s.(pcs := s.pcs[s.main.k := Running], main := Adding(s.main.k + 1))
    case SendInline => s.(buffer := s.buffer + [st.results[s.main.k]], main := Sending(s.main.k + 1))
    case BeginWait => s.(main := if s.main.Adding? then Waiting else Closing)
    case Send(i) => s.(buffer := s.buffer + [st.results[i]], pcs := s.pcs[i := Sent])
    case CountOut(i) => s.(counter := s.counter - 1, pcs := s.pcs[i := Ended])
    case EndWait => s.(main := Closing)
    case Close => s.(closed := true, main := Draining)
    case Receive => s.(items := s.items + [s.buffer[0]], buffer := s.buffer[1..])
    case LeaveStage => s.(stage := s.stage + 1, main := AtStage)
  }

  /** `ss` is an execution: every state follows from the one before by some enabled action. */
  ghost predicate IsExecution<R(!new)>(cfg: seq<Stage<R>>, ss: seq<State<R>>) {
    && ss != [] && ss[0] == Initial()
    && forall i :: 0 <= i < |ss| - 1 ==> Follows(cfg, ss[i], ss[i + 1])
  }

  ghost predicate Follows<R(!new)>(cfg: seq<Stage<R>>, s: State<R>, s': State<R>) {
    exists a :: Enabled(cfg, s, a) && Take(cfg, s, a) == s'
  }

  // ---- the invariant ----

  /** Goroutines counted in and not yet out. */
  function Active(pcs: seq<PC>): nat {
    if pcs == [] then 0 else (if pcs[0].Running? || pcs[0].Sent? then 1 else 0) + Active(pcs[1..])
  }

  predicate HasSent(pc: PC) { pc.Sent? || pc.Ended? }

  /** The results sent so far. */
  function SentResults<R>(pcs: seq<PC>, results: seq<R>): multiset<R>
    requires |pcs| == |results|
  {
    if pcs == [] then multiset{}
    else (if HasSent(pcs[0]) then multiset{results[0]} else multiset{}) + SentResults(pcs[1..], results[1..])
  }

  /** Goroutines from `k` on have not been started, those before have. */
  predicate StartedUpTo(pcs: seq<PC>, k: nat) {
    k <= |pcs| && forall i :: 0 <= i < |pcs| ==> (pcs[i].Idle? <==> i >= k)
  }

  /** What the stages before `stage` have put out: stage by stage, the results of a sequential
      stage in order, those of a parallel stage in some order. */
  ghost predicate StageByStage<R>(stages: seq<Stage<R>>, items: seq<R>) {
    if stages == [] then items == []
    else
      var last := |stages| - 1;
      var n := |stages[last].results|;
      && |items| >= n
      && StageByStage(stages[..last], items[..|items| - n])
      && Reports(stages[last], items[|items| - n..])
  }

  ghost predicate Reports<R>(st: Stage<R>, out: seq<R>) {
    if st.parallel then multiset(out) == multiset(st.results) else out == st.results
  }

  /** What has come out of the current stage, received or still buffered. */
  function Output<R>(s: State<R>): seq<R>
    requires s.base <= |s.items|
  {
    s.items[s.base..] + s.buffer
  }

  ghost predicate ParallelInv<R>(st: Stage<R>, s: State<R>)
    requires s.base <= |s.items| && |s.pcs| == |st.results|
  {
    && s.counter == Active(s.pcs) + (if s.main.Starting? then 1 else 0)
    && multiset(Output(s)) == SentResults(s.pcs, st.results)
    && match s.main
       case Adding(k) => StartedUpTo(s.pcs, k)
       case Starting(k) => k < |s.pcs| && StartedUpTo(s.pcs, k)
       case Waiting => StartedUpTo(s.pcs, |s.pcs|)
       case Closing => s.counter == 0 && StartedUpTo(s.pcs, |s.pcs|)
       case Draining => s.counter == 0 && StartedUpTo(s.pcs, |s.pcs|)
       case _ => false
  }

  ghost predicate SequentialInv<R>(st: Stage<R>, s: State<R>)
    requires s.base <= |s.items| && |s.pcs| == |st.results|
  {
    && StartedUpTo(s.pcs, 0) && s.counter == 0
    && match s.main
       case Sending(k) => k <= |st.results| && Output(s) == st.results[..k]
       case Closing => Output(s) == st.results
       case Draining => Output(s) == st.results
       case _ => false
  }

  ghost predicate Inv<R>(cfg: seq<Stage<R>>, s: State<R>)
    requires s.base <= |s.items| && s.stage < |cfg| && |s.pcs| == |cfg[s.stage].results|
  {
    var st := cfg[s.stage];
    && s.pcs != []
    && s.closed == s.main.Draining?
    && (if s.main.Draining? then true else s.base == |s.items|)
    && StageByStage(cfg[..s.stage], s.items[..s.base])
    && if st.parallel then ParallelInv(st, s) else SequentialInv(st, s)
  }

  ghost predicate Valid<R>(cfg: seq<Stage<R>>, s: State<R>) {
    && s.stage <= |cfg|
    && if s.main.AtStage? then StageByStage(cfg[..s.stage], s.items) && s.buffer == [] && s.closed && s.counter == 0
       else s.base <= |s.items| && s.stage < |cfg| && |s.pcs| == |cfg[s.stage].results| && Inv(cfg, s)
  }
}
