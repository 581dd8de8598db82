/**
The threads of the starfield demo: a main loop, one fader thread per strip, and a signal that
may clear the flag `running` at any moment. Each thread is a program counter; a step is one
semaphore operation, one read of `running`, one call of the drawing code, or one `fade` call.
Semaphores are counters, a wait is a step that is enabled only while the counter is positive.
*/
module StarfieldProtocol {

  datatype WorkerPc = Unborn | Check | PostRound | Wait | Fading | PostFinal | Done

  datatype MainPc = Spawn(i: nat) | Head | Draw | Await(i: nat) | Release(i: nat)
                  | FinalPost(i: nat) | Join(i: nat) | Finished

  /** What belongs to one worker: its program counter, its two semaphores, and four counters that
      only record history: its posts of sem_main, the main loop's waits on it, the main loop's
      posts of sem during rounds, and its own waits on sem. */
  datatype Lane = Lane(pc: WorkerPc, sem: nat, semMain: nat,
                       posted: nat, taken: nat, released: nat, woken: nat)
  {
    /** Completed `fade` calls. */
    function Faded(): int { woken as int - (if pc == Fading then 1 else 0) }
  }

  /** `draws` and `rounds` record the calls of calc_starfield and the completed rounds. */
  datatype State = State(running: bool, main: MainPc, j: nat, lanes: seq<Lane>, draws: nat, rounds: nat)
  {
    function N(): nat { |lanes| }

    predicate Shaped() {
      && |lanes| > 0
      && match main
         case Spawn(i) => i < |lanes|
         case Await(i) => i < |lanes|
         case Release(i) => i < |lanes|
         case FinalPost(i) => i < |lanes|
         case Join(i) => i < |lanes|
         case _ => true
    }

    function Put(i: nat, lane: Lane): State
      requires i < |lanes|
    {
      this.(lanes := lanes[i := lane])
    }
  }

  function Init(n: nat): (s: State)
    requires n > 0
  {
    State(true, Spawn(0), 0, seq(n, _ => Lane(Unborn, 0, 0, 0, 0, 0, 0)), 0, 0)
  }

  // ---------- steps ----------

  datatype Actor = Main | Worker(id: nat) | Signal

  predicate LaneEnabled(l: Lane)
  {
    l.pc != Unborn && l.pc != Done && (l.pc == Wait ==> l.sem > 0)
  }

  predicate Enabled(s: State, a: Actor)
  {
    s.Shaped() && match a
    case Signal => true
    case Worker(i) => i < s.N() && LaneEnabled(s.lanes[i])
    case Main =>
      match s.main
      case Await(i) => s.lanes[i].semMain > 0
      case Join(i) => s.lanes[i].pc == Done
      case Finished => false
      case _ => true
  }

  /** One step of the main function. */
  function MainNext(s: State): (t: State)
    requires Enabled(s, Main)
  {
    match s.main
    case Spawn(i) =>
      s.Put(i, s.lanes[i].(pc := Check)).(main := if i + 1 < s.N() then Spawn(i + 1) else Head)
    case Head =>
      s.(main := if s.running then Draw else FinalPost(0))
    case Draw =>
      if s.j < 4 then s.(j := s.j + 1, draws := s.draws + 1, main := Head)
      else s.(j := 0, draws := s.draws + 1, main := Await(0))
    case Await(i) =>
      var l := s.lanes[i];
      s.Put(i, l.(semMain := l.semMain - 1, taken := l.taken + 1)).(main := Release(i))
    case Release(i) =>
      var l := s.lanes[i];
      var t := s.Put(i, l.(sem := l.sem + 1, released := l.released + 1));
      if i + 1 < s.N() then t.(main := Await(i + 1)) else t.(main := Head, rounds := s.rounds + 1)
    case FinalPost(i) =>
      var l := s.lanes[i];
      s.Put(i, l.(sem := l.sem + 1)).(main := Join(i))
    case Join(i) =>
      s.(main := if i + 1 < s.N() then FinalPost(i + 1) else Finished)
  }

  /** One step of fade_worker. */
  function LaneNext(l: Lane, running: bool): (m: Lane)
    requires LaneEnabled(l)
  {
    match l.pc
    case Check => l.(pc := if running then PostRound else PostFinal)
    case PostRound => l.(semMain := l.semMain + 1, posted := l.posted + 1, pc := Wait)
    case Wait => l.(sem := l.sem - 1, woken := l.woken + 1, pc := Fading)
    case Fading => l.(pc := Check)
    case PostFinal => l.(semMain := l.semMain + 1, posted := l.posted + 1, pc := Done)
  }

  function Next(s: State, a: Actor): (t: State)
    requires Enabled(s, a)
  {
    match a
    case Main => MainNext(s)
    case Worker(i) => s.Put(i, LaneNext(s.lanes[i], s.running))
    case Signal => s.(running := false)
  }

  /** A run: the actors in the order the scheduler and the signal pick them. */
  ghost predicate Legal(s: State, run: seq<Actor>)
    decreases run
  {
    run == [] || (Enabled(s, run[0]) && Legal(Next(s, run[0]), run[1..]))
  }

  ghost function After(s: State, run: seq<Actor>): (t: State)
    requires Legal(s, run)
    decreases run
  {
    if run == [] then s else After(Next(s, run[0]), run[1..])
  }

  // ---------- the invariant ----------

  function B(b: bool): nat { if b then 1 else 0 }

  /** 1 once the shutdown loop has posted sem[i] for the join of worker i. */
  function Extra(m: MainPc, i: nat): nat
  {
    match m
    case FinalPost(k) => B(i < k)
    case Join(k) => B(i <= k)
    case Finished => 1
    case _ => 0
  }

  predicate InShutdown(m: MainPc) { m.FinalPost? || m.Join? || m.Finished? }

  /** Main has already served worker i in the round it is in. */
  predicate Served(m: MainPc, i: nat) { (m.Await? || m.Release?) && i < m.i }

  /** Main may still wait on sem_main[i] before it reads `running` again. */
  predicate MayAwait(m: MainPc, i: nat) { m.Draw? || (m.Await? && m.i <= i) || (m.Release? && m.i < i) }

  /** The shutdown loop has joined worker i. */
  predicate Joined(m: MainPc, i: nat) { m.Finished? || ((m.FinalPost? || m.Join?) && i < m.i) }

  ghost predicate LaneInv(running: bool, m: MainPc, rounds: nat, l: Lane, i: nat)
  {
    // the semaphores count posts minus waits
    && l.semMain + l.taken == l.posted
    && l.sem + l.woken == l.released + Extra(m, i)
    && l.taken == l.released + B(m == Release(i))
    && l.posted == l.woken + B(l.pc == Wait || l.pc == Done)
    && (l.pc == Fading ==> l.woken > 0)
    // worker threads exist once main has created them
    && (l.pc == Unborn <==> m.Spawn? && m.i <= i)
    // a worker leaves its loop only after it saw `running` cleared
    && (l.pc == PostFinal || l.pc == Done ==> !running)
    // the final post is taken only by a round after which main reads `running` as cleared
    && (l.pc == Done && MayAwait(m, i) ==> l.semMain == 1)
    // the shutdown post wakes a worker for its last fade only
    && (l.woken == l.released + 1 ==> l.pc == Fading || l.pc == Check || l.pc == PostFinal || l.pc == Done)
    // rounds serve the workers in order
    && l.released == rounds + B(Served(m, i))
    && (Joined(m, i) ==> l.pc == Done)
  }

  ghost predicate Inv(s: State)
  {
    && s.Shaped()
    && (InShutdown(s.main) ==> !s.running)
    && s.j <= 4
    && s.draws == 5 * (s.rounds + B(s.main.Await? || s.main.Release?)) + s.j
    && forall i :: 0 <= i < s.N() ==> LaneInv(s.running, s.main, s.rounds, s.lanes[i], i)
  }

  lemma InitInv(n: nat)
    requires n > 0
    ensures Inv(Init(n))
  {
  }

  lemma {:induction false} WorkerKeepsLane(s: State, l: Lane, i: nat)
    requires i < s.N() && (InShutdown(s.main) ==> !s.running) && LaneEnabled(l)
    requires LaneInv(s.running, s.main, s.rounds, l, i)
    ensures LaneInv(s.running, s.main, s.rounds, LaneNext(l, s.running), i)
  {
    match l.pc
    case Check =>
    case PostRound =>
    case Wait =>
    case Fading =>
    case PostFinal =>
  }

  lemma {:induction false} SpawnKeepsLane(s: State, i: nat)
    requires Enabled(s, Main) && i < s.N() && (InShutdown(s.main) ==> !s.running)
    requires s.main.Spawn? || s.main.Head? || s.main.Draw?
    requires LaneInv(s.running, s.main, s.rounds, s.lanes[i], i)
    ensures var t := MainNext(s); t.N() == s.N() && LaneInv(t.running, t.main, t.rounds, t.lanes[i], i)
  {
  }

  lemma {:induction false} AwaitKeepsLane(s: State, i: nat)
    requires Enabled(s, Main) && i < s.N() && (InShutdown(s.main) ==> !s.running)
    requires s.main.Await?
    requires LaneInv(s.running, s.main, s.rounds, s.lanes[i], i)
    ensures var t := MainNext(s); t.N() == s.N() && LaneInv(t.running, t.main, t.rounds, t.lanes[i], i)
  {
  }

  lemma {:induction false} ReleaseKeepsLane(s: State, i: nat)
    requires Enabled(s, Main) && i < s.N() && (InShutdown(s.main) ==> !s.running)
    requires s.main.Release?
    requires LaneInv(s.running, s.main, s.rounds, s.lanes[i], i)
    ensures var t := MainNext(s); t.N() == s.N() && LaneInv(t.running, t.main, t.rounds, t.lanes[i], i)
  {
  }

  lemma {:induction false} ShutdownKeepsLane(s: State, i: nat)
    requires Enabled(s, Main) && i < s.N() && (InShutdown(s.main) ==> !s.running)
    requires InShutdown(s.main)
    requires LaneInv(s.running, s.main, s.rounds, s.lanes[i], i)
    ensures var t := MainNext(s); t.N() == s.N() && LaneInv(t.running, t.main, t.rounds, t.lanes[i], i)
  {
  }

  lemma {:induction false} StepKeepsLane(s: State, a: Actor, i: nat)
    requires Inv(s) && Enabled(s, a) && i < s.N()
    ensures var t := Next(s, a); t.N() == s.N() && LaneInv(t.running, t.main, t.rounds, t.lanes[i], i)
  {
    assert LaneInv(s.running, s.main, s.rounds, s.lanes[i], i);
    match a
    case Main =>
      if s.main.Await? {
        AwaitKeepsLane(s, i);
      } else if s.main.Release? {
        ReleaseKeepsLane(s, i);
      } else if InShutdown(s.main) {
        ShutdownKeepsLane(s, i);
      } else {
        SpawnKeepsLane(s, i);
      }
    case Worker(w) => if w == i { WorkerKeepsLane(s, s.lanes[i], i); }
    case Signal =>
  }

  /** Every step keeps the invariant, whatever the schedule and whenever the signal comes. */
  lemma {:induction false} StepKeepsInv(s: State, a: Actor)
    requires Inv(s) && Enabled(s, a)
    ensures Inv(Next(s, a)) && Next(s, a).N() == s.N()
  {
    var t := Next(s, a);
    forall i | 0 <= i < s.N() ensures t.N() == s.N() && LaneInv(t.running, t.main, t.rounds, t.lanes[i], i) {
      StepKeepsLane(s, a, i);
    }
  }

  lemma {:induction false} RunKeepsInv(s: State, run: seq<Actor>)
    requires Inv(s) && Legal(s, run)
    ensures Inv(After(s, run)) && After(s, run).N() == s.N()
    decreases run
  {
    if run != [] {
      StepKeepsInv(s, run[0]);
      RunKeepsInv(Next(s, run[0]), run[1..]);
    }
  }

  ghost predicate Reachable(n: nat, run: seq<Actor>, s: State)
  {
    n > 0 && Legal(Init(n), run) && After(Init(n), run) == s
  }

  lemma {:induction false} ReachableInv(n: nat, run: seq<Actor>, s: State)
    requires Reachable(n, run, s)
    ensures Inv(s) && s.N() == n
  {
    InitInv(n);
    RunKeepsInv(Init(n), run);
  }

  // ---------- safety ----------

  /** During the rounds the semaphores are binary, a worker has completed as many fades as it was
      released for or one less, and two workers never drift apart by more than two fades. */
  lemma {:induction false} RoundsAreLockstep(n: nat, run: seq<Actor>, s: State, i: nat, k: nat)
    requires Reachable(n, run, s) && !InShutdown(s.main) && i < n && k < n
    ensures s.N() == n
    ensures s.lanes[i].sem <= 1 && s.lanes[i].semMain <= 1
    ensures s.lanes[i].released - 1 <= s.lanes[i].Faded() <= s.lanes[i].released
    ensures s.lanes[i].Faded() - s.lanes[k].Faded() <= 2
    ensures s.draws == 5 * (s.rounds + B(s.main.Await? || s.main.Release?)) + s.j
  {
    ReachableInv(n, run, s);
    assert LaneInv(s.running, s.main, s.rounds, s.lanes[i], i);
    assert LaneInv(s.running, s.main, s.rounds, s.lanes[k], k);
  }

  /** Over the whole life, shutdown included: at most one fade per release plus the last wake-up,
      and once main has joined everyone no worker can step again. */
  lemma {:induction false} ShutdownIsSafe(n: nat, run: seq<Actor>, s: State, i: nat)
    requires Reachable(n, run, s) && i < n
    ensures s.N() == n
    ensures s.lanes[i].Faded() <= s.lanes[i].released + 1
    ensures s.lanes[i].sem <= 2 && s.lanes[i].semMain <= 2
    ensures s.main == Finished ==> s.lanes[i].pc == Done && !Enabled(s, Worker(i))
    ensures InShutdown(s.main) ==> forall k :: 0 <= k < n ==> s.lanes[k].released == s.lanes[i].released
  {
    ReachableInv(n, run, s);
    assert LaneInv(s.running, s.main, s.rounds, s.lanes[i], i);
    if InShutdown(s.main) {
      forall k | 0 <= k < n ensures s.lanes[k].released == s.lanes[i].released {
        assert LaneInv(s.running, s.main, s.rounds, s.lanes[k], k);
      }
    }
  }

  /** Only a wait of main or a wait of a worker can block, and never both at once. */
  lemma {:induction false} NotStuck(s: State)
    requires Inv(s) && s.main != Finished
    ensures Enabled(s, Main) || exists i: nat :: Enabled(s, Worker(i))
  {
    if !Enabled(s, Main) {
      var i := s.main.i;
      assert LaneInv(s.running, s.main, s.rounds, s.lanes[i], i);
      assert Enabled(s, Worker(i));
    }
  }

  /** No interleaving of main, workers and the signal can deadlock before main is done. */
  lemma {:induction false} DeadlockFree(n: nat, run: seq<Actor>, s: State)
    requires Reachable(n, run, s) && s.main != Finished
    ensures exists a: Actor :: a != Signal && Enabled(s, a)
  {
    ReachableInv(n, run, s);
    NotStuck(s);
    if !Enabled(s, Main) {
      var i: nat :| Enabled(s, Worker(i));
      assert Worker(i) != Signal && Enabled(s, Worker(i));
    }
  }

  /** Once main has taken the final post of worker i, it never waits on sem_main[i] again: the
      round that took it is followed by a read of `running` as cleared. */
  lemma {:induction false} FinalPostTakenOnce(s: State, run: seq<Actor>, i: nat)
    requires Inv(s) && Legal(s, run) && i < s.N()
    requires s.lanes[i].pc == Done && s.lanes[i].semMain == 0
    ensures After(s, run).N() == s.N()
    ensures After(s, run).lanes[i].taken == s.lanes[i].taken && After(s, run).lanes[i].semMain == 0
    decreases run
  {
    if run != [] {
      assert LaneInv(s.running, s.main, s.rounds, s.lanes[i], i);
      StepKeepsInv(s, run[0]);
      FinalPostTakenOnce(Next(s, run[0]), run[1..], i);
    }
  }

  // ---------- progress ----------

  ghost function Sum(weights: seq<nat>): nat
  {
    if weights == [] then 0 else weights[0] + Sum(weights[1..])
  }

  lemma {:induction false} SumUpdate(weights: seq<nat>, i: nat, x: nat)
    requires i < |weights|
    ensures Sum(weights[i := x]) + weights[i] == Sum(weights) + x
  {
    if i > 0 {
      assert weights[i := x][1..] == weights[1..][i - 1 := x];
      SumUpdate(weights[1..], i - 1, x);
    } else {
      assert weights[0 := x][1..] == weights[1..];
    }
  }

  /** Steps a worker can still take before it blocks or ends, given its pending wake-ups. */
  function Budget(l: Lane): nat
  {
    4 * l.sem + match l.pc
    case Fading => 3
    case Check => 2
    case PostRound => 1
    case PostFinal => 1
    case _ => 0
  }

  /** Steps a worker can still take once `running` is cleared. */
  function Rank(pc: WorkerPc): nat
  {
    match pc
    case PostRound => 5
    case Wait => 4
    case Fading => 3
    case Check => 2
    case Unborn => 2
    case PostFinal => 1
    case Done => 0
  }

  function MainRank(m: MainPc, n: nat): int
  {
    match m
    case Spawn(i) => 4 * n + 3 + (n - i)
    case Draw => 4 * n + 3
    case Await(i) => 2 * n + 2 + 2 * (n - i)
    case Release(i) => 2 * n + 1 + 2 * (n - i)
    case Head => 2 * n + 1
    case FinalPost(i) => 2 * (n - i)
    case Join(i) => 2 * (n - i) - 1
    case Finished => 0
  }

  ghost function Budgets(s: State): seq<nat> { seq(s.N(), i requires 0 <= i < s.N() => Budget(s.lanes[i])) }

  ghost function Ranks(s: State): seq<nat> { seq(s.N(), i requires 0 <= i < s.N() => Rank(s.lanes[i].pc)) }

  /** Bound on the steps main and the workers can still take once `running` is cleared. */
  ghost function Work(s: State): int { MainRank(s.main, s.N()) + Sum(Ranks(s)) }

  lemma {:induction false} WorkerSpendsBudget(s: State, w: nat)
    requires Enabled(s, Worker(w))
    ensures Sum(Budgets(Next(s, Worker(w)))) < Sum(Budgets(s))
  {
    var t := Next(s, Worker(w));
    assert Budgets(t) == Budgets(s)[w := Budget(t.lanes[w])];
    SumUpdate(Budgets(s), w, Budget(t.lanes[w]));
  }

  lemma {:induction false} MainWorks(s: State)
    requires Inv(s) && !s.running && Enabled(s, Main)
    ensures Work(MainNext(s)) < Work(s)
  {
    var t := MainNext(s);
    if s.main.Spawn? {
      var i := s.main.i;
      assert LaneInv(s.running, s.main, s.rounds, s.lanes[i], i);
      assert Ranks(t) == Ranks(s)[i := Rank(Check)];
      SumUpdate(Ranks(s), i, Rank(Check));
    } else {
      assert Ranks(t) == Ranks(s);
    }
  }

  lemma {:induction false} ThreadStepWorks(s: State, a: Actor)
    requires Inv(s) && !s.running && a != Signal && Enabled(s, a)
    ensures Work(Next(s, a)) < Work(s)
  {
    match a
    case Main => MainWorks(s);
    case Worker(w) =>
      var t := Next(s, a);
      assert Ranks(t) == Ranks(s)[w := Rank(t.lanes[w].pc)];
      SumUpdate(Ranks(s), w, Rank(t.lanes[w].pc));
  }

  lemma {:induction false} WorkNotNegative(s: State)
    requires s.Shaped()
    ensures Work(s) >= 0
  {
  }

  ghost function ThreadSteps(run: seq<Actor>): nat
  {
    if run == [] then 0 else B(run[0] != Signal) + ThreadSteps(run[1..])
  }

  /** After the signal every schedule is finite: each step of main or a worker uses up work,
      and further signals change nothing. */
  lemma {:induction false} ShutdownIsBounded(s: State, run: seq<Actor>)
    requires Inv(s) && !s.running && Legal(s, run)
    ensures ThreadSteps(run) <= Work(s)
    decreases run
  {
    WorkNotNegative(s);
    if run != [] {
      StepKeepsInv(s, run[0]);
      if run[0] != Signal { ThreadStepWorks(s, run[0]); }
      ShutdownIsBounded(Next(s, run[0]), run[1..]);
    }
  }

  /** The flag is cleared by the signal, and by nothing else. */
  lemma {:induction false} RunningUntilSignal(s: State, run: seq<Actor>)
    requires Legal(s, run)
    ensures After(s, run).running <==> s.running && Signal !in run
    decreases run
  {
    if run != [] { RunningUntilSignal(Next(s, run[0]), run[1..]); }
  }

  lemma {:induction false} RunSplits(s: State, run: seq<Actor>, k: nat)
    requires Legal(s, run) && k <= |run|
    ensures Legal(s, run[..k]) && Legal(After(s, run[..k]), run[k..])
    ensures After(After(s, run[..k]), run[k..]) == After(s, run)
    decreases k
  {
    if k > 0 {
      RunSplits(Next(s, run[0]), run[1..], k - 1);
      assert run[..k][1..] == run[1..][..k - 1] && run[k..] == run[1..][k - 1..];
    } else {
      assert run[..0] == [] && run[0..] == run;
    }
  }

  lemma {:induction false} SumBelow(weights: seq<nat>, m: nat)
    requires forall i :: 0 <= i < |weights| ==> weights[i] <= m
    ensures Sum(weights) <= m * |weights|
  {
    if weights != [] {
      SumBelow(weights[1..], m);
      assert m * |weights| == m * |weights[1..]| + m;
    }
  }

  lemma {:induction false} SignalSeen(s: State, run: seq<Actor>, k: nat)
    requires Legal(s, run) && k < |run| && run[k] == Signal
    ensures Legal(s, run[..k + 1]) && !After(s, run[..k + 1]).running
  {
    RunSplits(s, run, k + 1);
    RunningUntilSignal(s, run[..k + 1]);
    assert run[..k + 1][k] == Signal;
  }

  lemma {:induction false} FewStepsLeft(s: State, run: seq<Actor>)
    requires Inv(s) && !s.running && Legal(s, run)
    ensures ThreadSteps(run) <= 10 * s.N() + 3
  {
    ShutdownIsBounded(s, run);
    SumBelow(Ranks(s), 5);
  }

  /** However long the program has run, behind a signal main and the workers together take at most 10 n + 3
      more steps. */
  lemma {:induction false} SignalEndsProgram(n: nat, run: seq<Actor>, s: State, k: nat)
    requires Reachable(n, run, s) && k < |run| && run[k] == Signal
    ensures !s.running && ThreadSteps(run[k + 1..]) <= 10 * n + 3
  {
    RunningUntilSignal(Init(n), run);
    SignalSeen(Init(n), run, k);
    RunSplits(Init(n), run, k + 1);
    var t := After(Init(n), run[..k + 1]);
    ReachableInv(n, run[..k + 1], t);
    FewStepsLeft(t, run[k + 1..]);
  }

  /** And a schedule that cannot be continued has main finished with every worker joined. */
  lemma {:induction false} StuckMeansJoined(n: nat, run: seq<Actor>, s: State)
    requires Reachable(n, run, s) && (forall a: Actor | a != Signal :: !Enabled(s, a))
    ensures s.N() == n && s.main == Finished && !s.running
    ensures forall i :: 0 <= i < n ==> s.lanes[i].pc == Done
  {
    ReachableInv(n, run, s);
    if s.main != Finished { DeadlockFree(n, run, s); }
    forall i | 0 <= i < n ensures s.lanes[i].pc == Done {
      assert LaneInv(s.running, s.main, s.rounds, s.lanes[i], i);
    }
  }

  /** While main is blocked the workers can only take boundedly many steps, so main's turn comes
      without any fairness assumption, whether or not the signal has been seen. */
  lemma {:induction false} WorkersYieldToMain(s: State, run: seq<Actor>)
    requires Inv(s) && Legal(s, run) && forall k :: 0 <= k < |run| ==> run[k].Worker?
    ensures |run| <= Sum(Budgets(s))
    ensures s.main != Finished && (forall i: nat :: !Enabled(After(s, run), Worker(i))) ==> Enabled(After(s, run), Main)
    decreases run
  {
    if run == [] {
      if s.main != Finished { NotStuck(s); }
    } else {
      assert run[0].Worker?;
      StepKeepsInv(s, run[0]);
      WorkerSpendsBudget(s, run[0].id);
      WorkersYieldToMain(Next(s, run[0]), run[1..]);
    }
  }

  // ---------- the program on its own arrays ----------

  /** The static variables of the program: `running`, the semaphore arrays, main's position and
      round counter, and where each thread is. The ghost fields only record history. */
  class Program {
    var running: bool
    var main: MainPc
    var j: nat
    const sem: array<nat>
    const semMain: array<nat>
    const worker: array<WorkerPc>
    ghost var posted: seq<nat>
    ghost var taken: seq<nat>
    ghost var released: seq<nat>
    ghost var woken: seq<nat>
    ghost var draws: nat
    ghost var rounds: nat

    ghost predicate Laid()
      reads this
    {
      && sem != semMain
      && sem.Length == semMain.Length == worker.Length
      && |posted| == |taken| == |released| == |woken| == worker.Length
    }

    ghost function LaneOf(i: nat): Lane
      reads this, sem, semMain, worker
      requires Laid() && i < worker.Length
    {
      Lane(worker[i], sem[i], semMain[i], posted[i], taken[i], released[i], woken[i])
    }

    ghost function Value(): State
      reads this, sem, semMain, worker
      requires Laid()
    {
      State(running, main, j,
            seq(worker.Length, i requires 0 <= i < worker.Length reads this, sem, semMain, worker
                  requires Laid() => LaneOf(i)), draws, rounds)
    }

    /** ExitProg, WorkerStep and MainStep are the steps of `Next`, and keep this. */
    ghost predicate Valid()
      reads this, sem, semMain, worker
    {
      Laid() && Inv(Value())
    }

    constructor (n: nat)
      requires n > 0
      ensures Valid() && Value() == Init(n)
      ensures fresh(sem) && fresh(semMain) && fresh(worker)
    {
      running, main, j := true, Spawn(0), 0;
      sem := new nat[n](_ => 0);
      semMain := new nat[n](_ => 0);
      worker := new WorkerPc[n](_ => Unborn);
      var zeros: seq<nat> := seq(n, _ => 0);
      posted, taken, released, woken := zeros, zeros, zeros, zeros;
      draws, rounds := 0, 0;
      new;
      InitInv(n);
      assert Value() == Init(n);
    }

    /** exit_prog, at any moment. */
    method ExitProg()
      requires Valid() && Enabled(Value(), Signal)
      modifies this`running
      ensures Valid() && !running && Value() == Next(old(Value()), Signal)
    {
      ghost var s := Value();
      running := false;
      assert Value().lanes == s.lanes;
      StepKeepsInv(s, Signal);
    }

    /** The switch of a worker's program counter. */
    method WorkerMoves(id: nat)
      requires Laid() && Enabled(Value(), Worker(id))
      modifies this, sem, semMain, worker
      ensures Laid() && Value() == Next(old(Value()), Worker(id))
    {
      ghost var s := Value();
      match worker[id] {
        case Check =>
          worker[id] := if running then PostRound else PostFinal;
        case PostRound =>
          semMain[id] := semMain[id] + 1;
          posted := posted[id := posted[id] + 1];
          worker[id] := Wait;
        case Wait =>
          sem[id] := sem[id] - 1;
          woken := woken[id := woken[id] + 1];
          worker[id] := Fading;
        case Fading =>
          worker[id] := Check;
        case PostFinal =>
          semMain[id] := semMain[id] + 1;
          posted := posted[id := posted[id] + 1];
          worker[id] := Done;
      }
      assert Value().lanes == Next(s, Worker(id)).lanes;
    }

    /** sem_wait on sem_main[i], then sem_post on sem[i]: two steps of the round loop. */
    method Serve()
      requires Laid() && Enabled(Value(), Main) && (main.Await? || main.Release?)
      modifies this, sem, semMain
      ensures Laid() && Value() == Next(old(Value()), Main)
    {
      ghost var s := Value();
      if main.Await? {
        var i := main.i;
        semMain[i] := semMain[i] - 1;
        taken := taken[i := taken[i] + 1];
        main := Release(i);
      } else {
        var i := main.i;
        sem[i] := sem[i] + 1;
        released := released[i := released[i] + 1];
        if i + 1 < worker.Length {
          main := Await(i + 1);
        } else {
          main, rounds := Head, rounds + 1;
        }
      }
      assert Value().lanes == Next(s, Main).lanes;
    }

    method MainMoves()
      requires Laid() && Enabled(Value(), Main)
      modifies this, sem, semMain, worker
      ensures Laid() && Value() == Next(old(Value()), Main)
    {
      ghost var s := Value();
      match main {
        case Spawn(i) =>
          worker[i] := Check;
          main := if i + 1 < worker.Length then Spawn(i + 1) else Head;
        case Head =>
          main := if running then Draw else FinalPost(0);
        case Draw =>
          draws := draws + 1;
          if j < 4 {
            j, main := j + 1, Head;
          } else {
            j, main := 0, Await(0);
          }
        case Await(_) =>
          Serve();
        case Release(_) =>
          Serve();
        case FinalPost(i) =>
          sem[i] := sem[i] + 1;
          main := Join(i);
        case Join(i) =>
          main := if i + 1 < worker.Length then FinalPost(i + 1) else Finished;
      }
      assert Value().lanes == Next(s, Main).lanes;
    }

    /** One step of fade_worker, in any state a run reaches. */
    method WorkerStep(id: nat)
      requires Valid() && Enabled(Value(), Worker(id))
      modifies this, sem, semMain, worker
      ensures Valid() && Value() == Next(old(Value()), Worker(id))
    {
      StepKeepsInv(Value(), Worker(id));
      WorkerMoves(id);
    }

    /** One step of main, in any state a run reaches. */
    method MainStep()
      requires Valid() && Enabled(Value(), Main)
      modifies this, sem, semMain, worker
      ensures Valid() && Value() == Next(old(Value()), Main)
    {
      StepKeepsInv(Value(), Main);
      MainMoves();
    }
  }
}
