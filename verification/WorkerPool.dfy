/** The end-to-end matrix runner: a dispatcher, a fixed number of workers and a collector that
    exchange cases and results over two unbuffered channels, under cancellation. The protocol is
    a state machine whose steps interleave freely. */
module WorkerPool {
  import opened Lists

  datatype Case = Case(index: int, version: string, format: string, mode: string)

  /** What runCase returns; the outcome is whatever running the case brought. */
  datatype CaseResult = CaseResult(testCase: Case, outcome: int)

  // ---------------------------------------------------------------- the cases

  datatype Combination = Combination(version: string, format: string, mode: string)

  function WithModes(v: string, f: string, ms: seq<string>): (cs: seq<Combination>)
    ensures |cs| == |ms|
  {
    seq(|ms|, m requires 0 <= m < |ms| => Combination(v, f, ms[m]))
  }

  function WithFormats(v: string, fs: seq<string>, ms: seq<string>): seq<Combination> {
    if fs == [] then [] else WithFormats(v, fs[..|fs| - 1], ms) + WithModes(v, fs[|fs| - 1], ms)
  }

  /** All combinations, modes varying fastest and versions slowest. */
  function Product(vs: seq<string>, fs: seq<string>, ms: seq<string>): seq<Combination> {
    if vs == [] then [] else Product(vs[..|vs| - 1], fs, ms) + WithFormats(vs[|vs| - 1], fs, ms)
  }

  /** Cases numbered from 1 in the order of their combinations. */
  function Numbered(cs: seq<Combination>): (cases: seq<Case>)
    ensures |cases| == |cs|
  {
    seq(|cs|, i requires 0 <= i < |cs| => Case(i + 1, cs[i].version, cs[i].format, cs[i].mode))
  }

  lemma NoModes(v: string, f: string, ms: seq<string>)
    ensures WithModes(v, f, ms[..0]) == []
  {
  }

  lemma NoneNumbered()
    ensures Numbered([]) == []
  {
  }

  lemma OneMoreMode(cs: seq<Combination>, v: string, f: string, ms: seq<string>, m: nat)
    requires m < |ms|
    ensures Numbered(cs + WithModes(v, f, ms[..m + 1]))
         == Numbered(cs + WithModes(v, f, ms[..m])) + [Case(|cs| + m + 1, v, f, ms[m])]
  {
    assert cs + WithModes(v, f, ms[..m + 1]) == cs + WithModes(v, f, ms[..m]) + [Combination(v, f, ms[m])];
  }

  /** Cases numbered 1, 2, ... in order: what ExpandCases produces. */
  ghost predicate InOrder(cases: seq<Case>) {
    forall i :: 0 <= i < |cases| ==> cases[i].index == i + 1
  }

  lemma NumberedInOrder(cs: seq<Combination>)
    ensures InOrder(Numbered(cs))
  {
  }

  method ExpandCases(vs: seq<string>, fs: seq<string>, ms: seq<string>) returns (cases: seq<Case>)
    ensures cases == Numbered(Product(vs, fs, ms)) && InOrder(cases)
  {
    hide Numbered, WithModes;
    cases := [];
    NoneNumbered();
    assert vs[..0] == [] && fs[..0] == [];
    for v := 0 to |vs|
      invariant cases == Numbered(Product(vs[..v], fs, ms))
    {
      ghost var versions := Product(vs[..v], fs, ms);
      assert versions + WithFormats(vs[v], fs[..0], ms) == versions;
      for f := 0 to |fs|
        invariant cases == Numbered(versions + WithFormats(vs[v], fs[..f], ms))
      {
        ghost var formats := versions + WithFormats(vs[v], fs[..f], ms);
        NoModes(vs[v], fs[f], ms);
        assert formats + WithModes(vs[v], fs[f], ms[..0]) == formats;
        for m := 0 to |ms|
          invariant cases == Numbered(formats + WithModes(vs[v], fs[f], ms[..m]))
        {
          OneMoreMode(formats, vs[v], fs[f], ms, m);
          cases := cases + [Case(|cases| + 1, vs[v], fs[f], ms[m])];
        }
        assert fs[..f + 1][..f] == fs[..f] && ms[..|ms|] == ms;
        assert versions + (WithFormats(vs[v], fs[..f], ms) + WithModes(vs[v], fs[f], ms))
            == formats + WithModes(vs[v], fs[f], ms);
      }
      assert vs[..v + 1][..v] == vs[..v] && fs[..|fs|] == fs;
    }
    assert vs[..|vs|] == vs;
    NumberedInOrder(Product(vs, fs, ms));
  }

  lemma RowBound(i: nat, n: nat, row: nat, k: nat)
    requires i < n && k < row
    ensures i * row + k < n * row
  {
    var rest := n - i - 1;
    assert rest * row >= 0;
    assert n * row == (i + 1 + rest) * row == i * row + row + rest * row;
  }

  lemma OneMoreRow(n: nat, row: nat)
    ensures (n + 1) * row == n * row + row
  {
  }

  lemma {:induction false} FormatsAt(v: string, fs: seq<string>, ms: seq<string>, f: nat, m: nat)
    ensures |WithFormats(v, fs, ms)| == |fs| * |ms|
    ensures f < |fs| && m < |ms| ==> f * |ms| + m < |WithFormats(v, fs, ms)|
    ensures f < |fs| && m < |ms| ==> WithFormats(v, fs, ms)[f * |ms| + m] == Combination(v, fs[f], ms[m])
  {
    if fs != [] {
      var n := |fs| - 1;
      FormatsAt(v, fs[..n], ms, f, m);
      OneMoreRow(n, |ms|);
      if f < |fs| && m < |ms| {
        RowBound(f, |fs|, |ms|, m);
      }
    }
  }

  lemma {:induction false} ProductLength(vs: seq<string>, fs: seq<string>, ms: seq<string>)
    ensures |Product(vs, fs, ms)| == |vs| * (|fs| * |ms|)
  {
    if vs != [] {
      var n := |vs| - 1;
      ProductLength(vs[..n], fs, ms);
      FormatsAt(vs[n], fs, ms, 0, 0);
      OneMoreRow(n, |fs| * |ms|);
    }
  }

  /** Every combination is a case, at its own place in the order. */
  lemma {:induction false} ProductAt(vs: seq<string>, fs: seq<string>, ms: seq<string>, v: nat, f: nat, m: nat)
    requires v < |vs| && f < |fs| && m < |ms|
    ensures |Product(vs, fs, ms)| == |vs| * (|fs| * |ms|)
    ensures v * (|fs| * |ms|) + (f * |ms| + m) < |Product(vs, fs, ms)|
    ensures Product(vs, fs, ms)[v * (|fs| * |ms|) + (f * |ms| + m)] == Combination(vs[v], fs[f], ms[m])
  {
    hide WithFormats;
    var n, row, k := |vs| - 1, |fs| * |ms|, f * |ms| + m;
    ProductLength(vs, fs, ms);
    ProductLength(vs[..n], fs, ms);
    FormatsAt(vs[n], fs, ms, f, m);
    RowBound(f, |fs|, |ms|, m);
    RowBound(v, |vs|, row, k);
    if v < n {
      ProductAt(vs[..n], fs, ms, v, f, m);
    }
  }

  // ---------------------------------------------------------------- the pool

  datatype Worker =
    | Idle                            // receiving from jobs
    | Running(testCase: Case)
    | Sending(result: CaseResult)     // blocked on results
    | Exited

  /** Where the dispatching goroutine stands. */
  datatype Dispatcher =
    | AtSend                          // in the select for cases[next]
    | AtCloseJobs
    | AtWait
    | AtCloseResults
    | Returned

  datatype Pool = Pool(
    next: nat,                        // cases handed to workers so far
    dispatcher: Dispatcher,
    workers: seq<Worker>,
    jobsClosed: bool,
    resultsClosed: bool,
    cancelled: bool,
    collected: seq<CaseResult>,
    collectorDone: bool)

  /** The worker goroutines started for a configured concurrency. */
  function WorkerCount(concurrency: int, n: nat): nat {
    var count := if concurrency > n then n else concurrency;
    if count < 0 then 0 else count
  }

  function Start(workers: nat): Pool {
    Pool(0, AtSend, seq(workers, _ => Idle), false, false, false, [], false)
  }

  predicate Final(s: Pool) {
    s.collectorDone
  }

  datatype Step =
    | Cancel
    | Dispatch(w: nat)
    | LeaveLoop                       // no case left, or the context is done
    | CloseJobs
    | Exit(w: nat)
    | Finish(w: nat, outcome: int)
    | Collect(w: nat)
    | WaitDone
    | CloseResults
    | CollectorExit

  predicate Enabled(cases: seq<Case>, s: Pool, step: Step) {
    match step
    case Cancel => !s.cancelled
    case Dispatch(w) => s.dispatcher == AtSend && s.next < |cases| && w < |s.workers| && s.workers[w] == Idle
    case LeaveLoop => s.dispatcher == AtSend && (s.next >= |cases| || s.cancelled)
    case CloseJobs => s.dispatcher == AtCloseJobs
    case Exit(w) => s.jobsClosed && w < |s.workers| && s.workers[w] == Idle
    case Finish(w, _) => w < |s.workers| && s.workers[w].Running?
    case Collect(w) => !s.collectorDone && w < |s.workers| && s.workers[w].Sending?
    case WaitDone => s.dispatcher == AtWait && forall k :: 0 <= k < |s.workers| ==> s.workers[k] == Exited
    case CloseResults => s.dispatcher == AtCloseResults
    case CollectorExit => !s.collectorDone && s.resultsClosed
  }

  function Take(cases: seq<Case>, s: Pool, step: Step): Pool
    requires Enabled(cases, s, step)
  {
    match step
    case Cancel => s.(cancelled := true)
    case Dispatch(w) => s.(workers := s.workers[w := Running(cases[s.next])], next := s.next + 1)
    case LeaveLoop => s.(dispatcher := AtCloseJobs)
    case CloseJobs => s.(dispatcher := AtWait, jobsClosed := true)
    case Exit(w) => s.(workers := s.workers[w := Exited])
    case Finish(w, outcome) =>
      s.(workers := s.workers[w := Sending(CaseResult(s.workers[w].testCase, outcome))])
    case Collect(w) => s.(workers := s.workers[w := Idle], collected := s.collected + [s.workers[w].result])
    case WaitDone => s.(dispatcher := AtCloseResults)
    case CloseResults => s.(dispatcher := Returned, resultsClosed := true)
    case CollectorExit => s.(collectorDone := true)
  }

  ghost predicate Follows(cases: seq<Case>, s: Pool, t: Pool) {
    exists step :: Enabled(cases, s, step) && t == Take(cases, s, step)
  }

  /** The states of a run: each follows from the one before by some enabled step. */
  ghost predicate Run(cases: seq<Case>, workers: nat, states: seq<Pool>) {
    && states != []
    && states[0] == Start(workers)
    && forall k :: 0 < k < |states| ==> Follows(cases, states[k - 1], states[k])
  }

  // ---------------------------------------------------------------- conservation

  function Held(w: Worker): multiset<Case> {
    match w
    case Running(c) => multiset{c}
    case Sending(r) => multiset{r.testCase}
    case _ => multiset{}
  }

  /** The cases that some worker is holding. */
  function InFlight(workers: seq<Worker>): multiset<Case> {
    if workers == [] then multiset{} else InFlight(workers[..|workers| - 1]) + Held(workers[|workers| - 1])
  }

  function CasesOf(results: seq<CaseResult>): (cs: seq<Case>)
    ensures |cs| == |results| && forall i :: 0 <= i < |results| ==> cs[i] == results[i].testCase
  {
    seq(|results|, i requires 0 <= i < |results| => results[i].testCase)
  }

  /** What holds in every reachable state: where everybody stands, */
  predicate ControlInv(cases: seq<Case>, workers: nat, s: Pool) {
    && |s.workers| == workers
    && s.next <= |cases|
    && (s.jobsClosed <==> s.dispatcher in {AtWait, AtCloseResults, Returned})
    && (s.resultsClosed <==> s.dispatcher == Returned)
    && (s.dispatcher in {AtCloseResults, Returned} ==> forall k :: 0 <= k < |s.workers| ==> s.workers[k] == Exited)
    && (!s.jobsClosed ==> forall k :: 0 <= k < |s.workers| ==> s.workers[k] != Exited)
    && (s.dispatcher != AtSend ==> s.next == |cases| || s.cancelled)
    && (s.collectorDone ==> s.resultsClosed)
  }

  /** and where every dispatched case is. */
  predicate CaseInv(cases: seq<Case>, s: Pool)
    requires s.next <= |cases|
  {
    multiset(cases[..s.next]) == InFlight(s.workers) + multiset(CasesOf(s.collected))
  }

  predicate Inv(cases: seq<Case>, workers: nat, s: Pool) {
    ControlInv(cases, workers, s) && CaseInv(cases, s)
  }

  lemma Exchange<T>(a: multiset<T>, x: multiset<T>, b: multiset<T>, y: multiset<T>, z: multiset<T>)
    requires a + x == b + y
    ensures (a + z) + x == (b + z) + y
  {
    assert (a + z) + x == (a + x) + z;
  }

  lemma InFlightLast(workers: seq<Worker>, front: seq<Worker>, last: Worker)
    requires workers == front + [last]
    ensures InFlight(workers) == InFlight(front) + Held(last)
  {
    assert workers[..|workers| - 1] == front;
  }

  lemma {:induction false} InFlightUpdate(workers: seq<Worker>, k: nat, w: Worker)
    requires k < |workers|
    ensures InFlight(workers[k := w]) + Held(workers[k]) == InFlight(workers) + Held(w)
  {
    hide InFlight, Held;
    var n := |workers| - 1;
    var front, last := workers[..n], workers[n];
    InFlightLast(workers, front, last);
    if k == n {
      InFlightLast(workers[k := w], front, w);
    } else {
      InFlightLast(workers[k := w], front[k := w], last);
      InFlightUpdate(front, k, w);
      Exchange(InFlight(front[k := w]), Held(workers[k]), InFlight(front), Held(w), Held(last));
    }
  }

  lemma {:induction false} NothingInFlight(workers: seq<Worker>)
    requires forall k :: 0 <= k < |workers| ==> Held(workers[k]) == multiset{}
    ensures InFlight(workers) == multiset{}
  {
    if workers != [] {
      NothingInFlight(workers[..|workers| - 1]);
    }
  }

  lemma {:induction false} InFlightBound(workers: seq<Worker>)
    ensures |InFlight(workers)| <= |workers|
  {
    if workers != [] {
      InFlightBound(workers[..|workers| - 1]);
    }
  }

  lemma CollectOne(results: seq<CaseResult>, r: CaseResult)
    ensures multiset(CasesOf(results + [r])) == multiset(CasesOf(results)) + multiset{r.testCase}
  {
    assert CasesOf(results + [r]) == CasesOf(results) + [r.testCase];
  }

  lemma InvStart(cases: seq<Case>, workers: nat)
    ensures Inv(cases, workers, Start(workers))
  {
    NothingInFlight(Start(workers).workers);
    assert cases[..0] == [];
  }

  lemma CasesAfterDispatch(cases: seq<Case>, s: Pool, w: nat)
    requires s.next < |cases| && w < |s.workers| && s.workers[w] == Idle && CaseInv(cases, s)
    ensures CaseInv(cases, s.(workers := s.workers[w := Running(cases[s.next])], next := s.next + 1))
  {
    hide InFlight;
    var c := cases[s.next];
    InFlightUpdate(s.workers, w, Running(c));
    assert cases[..s.next + 1] == cases[..s.next] + [c];
    assert InFlight(s.workers[w := Running(c)]) == InFlight(s.workers) + multiset{c};
  }

  lemma CasesAfterCollect(cases: seq<Case>, s: Pool, w: nat)
    requires s.next <= |cases| && w < |s.workers| && s.workers[w].Sending? && CaseInv(cases, s)
    ensures CaseInv(cases, s.(workers := s.workers[w := Idle], collected := s.collected + [s.workers[w].result]))
  {
    hide InFlight;
    var r := s.workers[w].result;
    InFlightUpdate(s.workers, w, Idle);
    CollectOne(s.collected, r);
    assert InFlight(s.workers) == InFlight(s.workers[w := Idle]) + multiset{r.testCase};
  }

  lemma CasesAfterChange(cases: seq<Case>, s: Pool, w: nat, worker: Worker)
    requires s.next <= |cases| && w < |s.workers| && Held(s.workers[w]) == Held(worker) && CaseInv(cases, s)
    ensures CaseInv(cases, s.(workers := s.workers[w := worker]))
  {
    hide InFlight;
    InFlightUpdate(s.workers, w, worker);
    var before, after := InFlight(s.workers), InFlight(s.workers[w := worker]);
    assert after == (after + Held(worker)) - Held(worker) == before;
  }

  lemma CasesAfterStep(cases: seq<Case>, s: Pool, step: Step)
    requires s.next <= |cases| && Enabled(cases, s, step) && CaseInv(cases, s)
    ensures Take(cases, s, step).next <= |cases| && CaseInv(cases, Take(cases, s, step))
  {
    hide InFlight;
    match step {
      case Dispatch(w) => CasesAfterDispatch(cases, s, w);
      case Exit(w) => CasesAfterChange(cases, s, w, Exited);
      case Finish(w, outcome) =>
        CasesAfterChange(cases, s, w, Sending(CaseResult(s.workers[w].testCase, outcome)));
      case Collect(w) => CasesAfterCollect(cases, s, w);
      case _ =>
    }
  }

  lemma InvStep(cases: seq<Case>, workers: nat, s: Pool, step: Step)
    requires Inv(cases, workers, s) && Enabled(cases, s, step)
    ensures Inv(cases, workers, Take(cases, s, step))
  {
    hide CaseInv;
    CasesAfterStep(cases, s, step);
  }

  lemma {:induction false} Reachable(cases: seq<Case>, workers: nat, states: seq<Pool>)
    requires Run(cases, workers, states)
    ensures Inv(cases, workers, states[|states| - 1])
  {
    hide Inv;
    var last := |states| - 1;
    if last == 0 {
      InvStart(cases, workers);
    } else {
      Reachable(cases, workers, states[..last]);
      assert Follows(cases, states[last - 1], states[last]);
      var step :| Enabled(cases, states[last - 1], step) && states[last] == Take(cases, states[last - 1], step);
      InvStep(cases, workers, states[last - 1], step);
    }
  }

  /** In every reachable state the cases split into undispatched, held and collected ones, and no
      more are held than there are workers, of which there are never more than cases. */
  lemma Conservation(cases: seq<Case>, concurrency: int, states: seq<Pool>)
    requires Run(cases, WorkerCount(concurrency, |cases|), states)
    ensures var s := states[|states| - 1];
            && s.next <= |cases|
            && multiset(cases) == multiset(cases[s.next..]) + InFlight(s.workers) + multiset(CasesOf(s.collected))
            && |InFlight(s.workers)| <= |s.workers| <= |cases|
            && (concurrency >= 0 ==> |s.workers| == if concurrency < |cases| then concurrency else |cases|)
  {
    Reachable(cases, WorkerCount(concurrency, |cases|), states);
    var s := states[|states| - 1];
    InFlightBound(s.workers);
    assert cases == cases[..s.next] + cases[s.next..];
  }

  /** No goroutine ever sends on a closed channel, and no channel is closed twice. */
  lemma NoSendAfterClose(cases: seq<Case>, workers: nat, states: seq<Pool>)
    requires Run(cases, workers, states)
    ensures var s := states[|states| - 1];
            && (s.jobsClosed ==> s.dispatcher != AtSend && s.dispatcher != AtCloseJobs)
            && (s.resultsClosed ==> s.dispatcher != AtCloseResults)
            && (s.resultsClosed ==>
                  forall k :: 0 <= k < |s.workers| ==> !s.workers[k].Sending? && !s.workers[k].Running?)
  {
    Reachable(cases, workers, states);
  }

  // ---------------------------------------------------------------- progress

  function Weight(w: Worker): nat {
    match w
    case Exited => 0
    case Idle => 1
    case Sending(_) => 2
    case Running(_) => 3
  }

  function TotalWeight(workers: seq<Worker>): nat {
    if workers == [] then 0 else TotalWeight(workers[..|workers| - 1]) + Weight(workers[|workers| - 1])
  }

  function Rank(d: Dispatcher): nat {
    match d
    case AtSend => 4
    case AtCloseJobs => 3
    case AtWait => 2
    case AtCloseResults => 1
    case Returned => 0
  }

  /** Work left; every step lowers it. */
  function Measure(cases: seq<Case>, s: Pool): nat
    requires s.next <= |cases|
  {
    3 * (|cases| - s.next) + TotalWeight(s.workers) + Rank(s.dispatcher)
    + (if s.cancelled then 0 else 1) + (if s.collectorDone then 0 else 1)
  }

  lemma {:induction false} WeightUpdate(workers: seq<Worker>, k: nat, w: Worker)
    requires k < |workers|
    ensures TotalWeight(workers[k := w]) + Weight(workers[k]) == TotalWeight(workers) + Weight(w)
  {
    var last := |workers| - 1;
    var updated := workers[k := w];
    if k == last {
      assert updated[..last] == workers[..last];
    } else {
      assert updated[..last] == workers[..last][k := w];
      WeightUpdate(workers[..last], k, w);
    }
  }

  lemma EveryStepLowers(cases: seq<Case>, s: Pool, step: Step)
    requires s.next <= |cases| && Enabled(cases, s, step)
    ensures Take(cases, s, step).next <= |cases|
    ensures Measure(cases, Take(cases, s, step)) < Measure(cases, s)
  {
    hide TotalWeight;
    match step {
      case Dispatch(w) => WeightUpdate(s.workers, w, Running(cases[s.next]));
      case Exit(w) => WeightUpdate(s.workers, w, Exited);
      case Finish(w, outcome) =>
        WeightUpdate(s.workers, w, Sending(CaseResult(s.workers[w].testCase, outcome)));
      case Collect(w) => WeightUpdate(s.workers, w, Idle);
      case _ =>
    }
  }

  /** No run is longer than the measure of its first state. */
  lemma {:induction false} RunsAreBounded(cases: seq<Case>, workers: nat, states: seq<Pool>)
    requires Run(cases, workers, states)
    ensures states[|states| - 1].next <= |cases|
    ensures |states| + Measure(cases, states[|states| - 1]) <= 1 + Measure(cases, Start(workers))
  {
    hide Measure;
    var last := |states| - 1;
    if last > 0 {
      RunsAreBounded(cases, workers, states[..last]);
      assert Follows(cases, states[last - 1], states[last]);
      var step :| Enabled(cases, states[last - 1], step) && states[last] == Take(cases, states[last - 1], step);
      EveryStepLowers(cases, states[last - 1], step);
    }
  }

  predicate Advances(cases: seq<Case>, s: Pool, step: Step) {
    step != Cancel && Enabled(cases, s, step)
  }

  /** Some step other than being cancelled is possible. */
  ghost predicate CanAdvance(cases: seq<Case>, s: Pool) {
    exists step :: Advances(cases, s, step)
  }

  /** What worker k can do next; `idle` is what its being idle allows. */
  function WorkerStep(s: Pool, k: nat, idle: Step): Step
    requires k < |s.workers|
  {
    match s.workers[k]
    case Running(_) => Finish(k, 0)
    case Sending(_) => Collect(k)
    case _ => idle
  }

  /** Once the context is cancelled, a way on that dispatches nothing more. */
  lemma SomeStep(cases: seq<Case>, workers: nat, s: Pool) returns (step: Step)
    requires Inv(cases, workers, s) && !s.collectorDone
    requires workers >= 1 || |cases| == 0
    ensures Advances(cases, s, step)
    ensures s.cancelled ==> !step.Dispatch?
  {
    hide InFlight;
    step :=
      match s.dispatcher
      case AtSend => if s.next >= |cases| || s.cancelled then LeaveLoop else WorkerStep(s, 0, Dispatch(0))
      case AtCloseJobs => CloseJobs
      case AtWait =>
        if exists k :: 0 <= k < |s.workers| && s.workers[k] != Exited then
          var k :| 0 <= k < |s.workers| && s.workers[k] != Exited;
          WorkerStep(s, k, Exit(k))
        else WaitDone
      case AtCloseResults => CloseResults
      case Returned => CollectorExit;
  }

  /** A reachable state that is not final can always advance, provided there is a worker or
      nothing to do. */
  lemma NeverStuck(cases: seq<Case>, workers: nat, states: seq<Pool>)
    requires Run(cases, workers, states) && !Final(states[|states| - 1])
    requires workers >= 1 || |cases| == 0
    ensures CanAdvance(cases, states[|states| - 1])
  {
    Reachable(cases, workers, states);
    var step := SomeStep(cases, workers, states[|states| - 1]);
    assert Advances(cases, states[|states| - 1], step);
  }

  lemma OneMoreState(cases: seq<Case>, workers: nat, states: seq<Pool>, step: Step)
    requires Run(cases, workers, states) && Enabled(cases, states[|states| - 1], step)
    ensures Run(cases, workers, states + [Take(cases, states[|states| - 1], step)])
  {
    hide Enabled, Take;
    var s := states[|states| - 1];
    var longer := states + [Take(cases, s, step)];
    assert Follows(cases, s, Take(cases, s, step));
    forall k | 0 < k < |longer|
      ensures Follows(cases, longer[k - 1], longer[k])
    {
      if k < |states| {
        assert longer[k - 1] == states[k - 1] && longer[k] == states[k];
      }
    }
  }

  lemma StaysUncancelled(cases: seq<Case>, s: Pool, step: Step)
    requires Enabled(cases, s, step) && step != Cancel
    ensures Take(cases, s, step).cancelled == s.cancelled
    ensures !step.Dispatch? ==> Take(cases, s, step).next == s.next
  {
  }

  /** Every reachable state leads to a final one, without any further cancellation; and from a cancelled
      state, without running any further case. */
  lemma {:induction false} ReachesFinal(cases: seq<Case>, workers: nat, states: seq<Pool>)
    returns (longer: seq<Pool>)
    requires Run(cases, workers, states) && (workers >= 1 || |cases| == 0)
    ensures states <= longer && Run(cases, workers, longer) && Final(longer[|longer| - 1])
    ensures longer[|longer| - 1].cancelled == states[|states| - 1].cancelled
    ensures states[|states| - 1].cancelled ==> longer[|longer| - 1].next == states[|states| - 1].next
    decreases Measure(cases, Start(workers)) - |states|
  {
    hide Measure, Follows, Enabled, Take, Inv;
    var s := states[|states| - 1];
    longer := states;
    if !Final(s) {
      Reachable(cases, workers, states);
      var step := SomeStep(cases, workers, s);
      OneMoreState(cases, workers, states, step);
      var next := states + [Take(cases, s, step)];
      RunsAreBounded(cases, workers, next);
      StaysUncancelled(cases, s, step);
      longer := ReachesFinal(cases, workers, next);
    }
  }

  /** One worker can run the first n cases one after another. */
  lemma {:induction false} OneByOne(cases: seq<Case>, workers: nat, n: nat) returns (states: seq<Pool>)
    requires workers >= 1 && n <= |cases|
    ensures Run(cases, workers, states)
    ensures var s := states[|states| - 1];
            && s.next == n && s.dispatcher == AtSend && !s.cancelled && !s.collectorDone
            && s.workers == Start(workers).workers
  {
    if n == 0 {
      states := [Start(workers)];
    } else {
      states := OneByOne(cases, workers, n - 1);
      var s := states[|states| - 1];
      OneMoreState(cases, workers, states, Dispatch(0));
      var running := states + [Take(cases, s, Dispatch(0))];
      var t := running[|running| - 1];
      OneMoreState(cases, workers, running, Finish(0, 0));
      var sending := running + [Take(cases, t, Finish(0, 0))];
      var u := sending[|sending| - 1];
      OneMoreState(cases, workers, sending, Collect(0));
      states := sending + [Take(cases, u, Collect(0))];
    }
  }

  /** A cancellation can end a run after any number of cases. */
  lemma AnyPrefixIsPossible(cases: seq<Case>, workers: nat, n: nat) returns (states: seq<Pool>)
    requires workers >= 1 && n <= |cases|
    ensures Run(cases, workers, states) && Final(states[|states| - 1])
    ensures states[|states| - 1].next == n && states[|states| - 1].cancelled
  {
    states := OneByOne(cases, workers, n);
    var s := states[|states| - 1];
    OneMoreState(cases, workers, states, Cancel);
    states := ReachesFinal(cases, workers, states + [Take(cases, s, Cancel)]);
  }

  /** As many cases as there are workers can be under way at the same time. */
  lemma {:induction false} AllWorkersBusy(cases: seq<Case>, workers: nat, n: nat) returns (states: seq<Pool>)
    requires n <= workers <= |cases|
    ensures Run(cases, workers, states)
    ensures var s := states[|states| - 1];
            && s.next == n && s.dispatcher == AtSend && |s.workers| == workers
            && (forall k :: 0 <= k < n ==> s.workers[k] == Running(cases[k]))
            && (forall k :: n <= k < workers ==> s.workers[k] == Idle)
  {
    if n == 0 {
      states := [Start(workers)];
    } else {
      states := AllWorkersBusy(cases, workers, n - 1);
      var s := states[|states| - 1];
      OneMoreState(cases, workers, states, Dispatch(n - 1));
      states := states + [Take(cases, s, Dispatch(n - 1))];
    }
  }

  /** The proviso is exact: without a worker the very first state waits for ever, unless there is
      no case to run. */
  lemma StuckWithoutWorkers(cases: seq<Case>)
    ensures CanAdvance(cases, Start(0)) <==> |cases| == 0
  {
    if |cases| == 0 {
      assert Advances(cases, Start(0), LeaveLoop);
    }
  }

  /** normalizeAndValidate on the concurrency: zero means one, and negative values are refused. */
  function NormalizeConcurrency(concurrency: int): (r: (bool, int))
    ensures r.0 <==> concurrency >= 0
    ensures r.0 ==> r.1 >= 1 && concurrency <= r.1 <= concurrency + 1 && (r.1 == concurrency || concurrency == 0)
  {
    if concurrency == 0 then (true, 1) else (concurrency > 0, concurrency)
  }

  /** A validated configuration never gets stuck. */
  lemma ValidatedNeverStuck(cases: seq<Case>, configured: int, states: seq<Pool>)
    requires NormalizeConcurrency(configured).0
    requires Run(cases, WorkerCount(NormalizeConcurrency(configured).1, |cases|), states)
    ensures Final(states[|states| - 1]) || CanAdvance(cases, states[|states| - 1])
  {
    if !Final(states[|states| - 1]) {
      NeverStuck(cases, WorkerCount(NormalizeConcurrency(configured).1, |cases|), states);
    }
  }

  // ---------------------------------------------------------------- what is returned

  ghost predicate Ascending(cs: seq<Case>) {
    forall i, j :: 0 <= i < j < |cs| ==> cs[i].index <= cs[j].index
  }

  /** sort.Slice by case index: some ascending arrangement of the results. */
  ghost predicate SortedArrangement(returned: seq<CaseResult>, collected: seq<CaseResult>) {
    && multiset(returned) == multiset(collected)
    && Ascending(CasesOf(returned))
  }

  lemma RemoveResult(a: seq<CaseResult>, k: nat)
    requires k < |a|
    ensures multiset(CasesOf(a[..k] + a[k + 1..])) + multiset{a[k].testCase} == multiset(CasesOf(a))
  {
    assert CasesOf(a[..k] + a[k + 1..]) == CasesOf(a)[..k] + CasesOf(a)[k + 1..];
    assert CasesOf(a) == CasesOf(a)[..k] + [a[k].testCase] + CasesOf(a)[k + 1..];
  }

  lemma {:induction false} CasesOfPermutation(a: seq<CaseResult>, b: seq<CaseResult>)
    requires multiset(a) == multiset(b)
    ensures multiset(CasesOf(a)) == multiset(CasesOf(b))
    decreases |a|
  {
    hide CasesOf;
    if a == [] {
      assert |b| == |multiset(b)| == |multiset(a)| == 0;
    } else {
      assert a[0] in multiset(b);
      var k :| 0 <= k < |b| && b[k] == a[0];
      var a', b' := a[..0] + a[1..], b[..k] + b[k + 1..];
      SameWithout(a, 0, b, k);
      CasesOfPermutation(a', b');
      RemoveResult(a, 0);
      RemoveResult(b, k);
    }
  }

  lemma DropLasts<T>(s: seq<T>, t: seq<T>)
    requires |s| == |t| > 0 && multiset(s) == multiset(t) && s[|s| - 1] == t[|s| - 1]
    ensures multiset(s[..|s| - 1]) == multiset(t[..|s| - 1])
    ensures s[..|s| - 1] == t[..|s| - 1] ==> s == t
  {
    var n := |s| - 1;
    assert s == s[..n] + [s[n]] && t == t[..n] + [t[n]];
    assert multiset(s[..n]) == multiset(s) - multiset{s[n]};
    assert multiset(t[..n]) == multiset(t) - multiset{t[n]};
  }

  lemma LastOfAscending(cs: seq<Case>, cases: seq<Case>)
    requires multiset(cs) == multiset(cases) && InOrder(cases)
    requires |cs| == |cases| > 0
    requires Ascending(cs)
    ensures cs[|cs| - 1] == cases[|cs| - 1]
  {
    var n := |cs| - 1;
    assert cases[n] in multiset(cs) && cs[n] in multiset(cases);
    var j :| 0 <= j < |cs| && cs[j] == cases[n];
    var k :| 0 <= k < |cases| && cases[k] == cs[n];
    assert n + 1 == cs[j].index <= cs[n].index == k + 1;
  }

  /** Two lists of the same cases in ascending order are equal when one is numbered in order. */
  lemma {:induction false} AscendingIsUnique(cs: seq<Case>, cases: seq<Case>)
    requires multiset(cs) == multiset(cases) && InOrder(cases)
    requires Ascending(cs)
    ensures cs == cases
    decreases |cs|
  {
    assert |cs| == |multiset(cs)| == |multiset(cases)| == |cases|;
    if cs != [] {
      var n := |cs| - 1;
      LastOfAscending(cs, cases);
      DropLasts(cs, cases);
      AscendingIsUnique(cs[..n], cases[..n]);
    }
  }

  /** What runCases returns: in every run that ends, the sorted slice has exactly the results of
      the first `next` cases, in order, each as its worker delivered it; without cancellation
      these are all the cases. */
  lemma ReturnedResults(cases: seq<Case>, workers: nat, states: seq<Pool>, returned: seq<CaseResult>)
    requires Run(cases, workers, states) && Final(states[|states| - 1]) && InOrder(cases)
    requires SortedArrangement(returned, states[|states| - 1].collected)
    ensures var s := states[|states| - 1];
            && s.next <= |cases|
            && CasesOf(returned) == cases[..s.next]
            && (!s.cancelled ==> CasesOf(returned) == cases)
  {
    var s := states[|states| - 1];
    Reachable(cases, workers, states);
    NothingInFlight(s.workers);
    CasesOfPermutation(returned, s.collected);
    AscendingIsUnique(CasesOf(returned), cases[..s.next]);
    assert cases[..|cases|] == cases;
  }
}
