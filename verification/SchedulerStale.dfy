/**
 The early return of ContextSwitch: a thread that blocks and is chosen again at once goes on without
 becoming Running and with its blocker still set. When exactly that happens, and a run from boot in
 which it leaves a thread that waits for nothing blocked.
 */
module SchedulerStale {
  import opened SchedulerModel
  import opened SchedulerInvariants
  import opened SchedulerFairness

  // ---------- exactly when ----------

  /** The thread goes on, but not in state Running, and the scheduler still looks at its blocker. */
  predicate Stale(th: Thread)
  {
    th.state == Runnable && th.blocker != NoBlocker
  }

  /** The world in which a thread that blocks looks for the next thread. */
  function BlockedWorld(w: World, b: Blocker): World
    requires w.current < |w.table|
  {
    Retire(With(w, w.current, CurrentThread(w).(blocker := b, waiting := b, state := Yielded)))
  }

  /** The current thread is left stale by Block if and only if the search finds the blocking thread
      itself, which is the guard of the early return. */
  lemma StaleExactly(w: World, b: Blocker, idle: nat)
    requires Inv(w, idle) && w.current != idle && w.table[w.current].waiting == NoBlocker && b != NoBlocker
    requires b.PipeWait? ==> b.pipe < |w.pipes| && b.me == w.table[w.current].pid
    ensures var w0, w' := BlockedWorld(w, b), Block(w, b);
            && |w0.list| > 0 && Scan(w0, w0.ctr, |w0.list|).Chosen? && w'.current < |w'.table|
            && (Stale(w'.table[w'.current]) <==> Scan(w0, w0.ctr, |w0.list|).tid == w.current)
  {
    hide Inv, Ready, Scan, Retired, IsBlocked;
    BlockReady(w, b, idle);
    InvCurrent(w, idle);
    var y := With(w, w.current, w.table[w.current].(blocker := b, waiting := b, state := Yielded));
    RetireKeeps(y, idle);
    var w0 := Retire(y);
    IdleRuns(w0, idle);
    SomebodyRuns(w0, idle);
    ChosenCanRun(w0, w0.ctr, |w0.list|);
  }

  // ---------- not while the list stays the same ----------

  /** The search that starts behind thread t, over the same list, comes to t only after everybody else. */
  lemma SearchedLast(w: World, t: nat, u: nat, k: nat, ctr: nat)
    requires NoDuplicates(w.list) && u in w.list && u != t && CanRun(w, u)
    requires k < |w.list| && w.list[k] == t && w.ctr == ctr + 1 && ctr % |w.list| == k
    ensures Scan(w, w.ctr, |w.list|).Chosen? && Scan(w, w.ctr, |w.list|).tid != t
  {
    hide CanRun, Scan, NoDuplicates;
    var n := |w.list|;
    var j :| 0 <= j < n && w.list[j] == u;
    var d := ProbeHits(w.ctr, n, j);
    NotTheLast(ctr, d, n, j, k);
    ScanFinds(w, w.ctr, n, d);
    ChosenCanRun(w, w.ctr, n);
    var c := Scan(w, w.ctr, n);
    if c.tid == t {
      SameIndex(w.list, (c.ctr - 1) % n, k);
      NextTurn(ctr, c.ctr - 1, n);
    }
  }

  lemma NotTheLast(ctr: nat, d: nat, n: nat, j: nat, k: nat)
    requires n > 0 && d < n && (ctr + 1 + d) % n == j && ctr % n == k && j != k
    ensures d + 1 < n
  {
    if d + 1 == n {
      Divided(ctr, n);
      var q := ctr / n;
      assert (q + 1) * n == q * n + n;
      ModUnique(q + 1, n, k);
    }
  }

  lemma Divided(x: nat, n: nat)
    requires n > 0
    ensures x == x / n * n + x % n && x % n < n
  {
  }

  lemma SameIndex(list: seq<nat>, i: nat, j: nat)
    requires NoDuplicates(list) && i < |list| && j < |list| && list[i] == list[j]
    ensures i == j
  {
  }

  /** Two numbers with the same remainder are at least n apart. */
  lemma NextTurn(a: nat, b: nat, n: nat)
    requires n > 0 && a < b && a % n == b % n
    ensures a + n <= b
  {
    Divided(a, n);
    Divided(b, n);
    TurnsApart(a, b, n, a / n, b / n, a % n);
  }

  lemma TurnsApart(a: nat, b: nat, n: nat, p: nat, q: nat, r: nat)
    requires a == p * n + r && b == q * n + r && a < b
    ensures a + n <= b
  {
    MoreRounds(p, q, n);
    MoreRounds(q, p, n);
  }

  /** A thread that was chosen over the same list, with no search since, is not left stale by Block. */
  lemma FreshOverSameList(d: World, w: World, b: Blocker, idle: nat)
    requires Inv(w, idle) && w.current != idle && w.table[w.current].waiting == NoBlocker && b != NoBlocker
    requires b.PipeWait? ==> b.pipe < |w.pipes| && b.me == w.table[w.current].pid
    requires |d.list| > 0 && Scan(d, d.ctr, |d.list|) == Chosen(w.current, w.ctr) && w.list == d.list
    ensures var w' := Block(w, b); w'.current < |w'.table| && !Stale(w'.table[w'.current])
  {
    hide Inv, Ready, Scan, Retired, Stale;
    StaleExactly(w, b, idle);
    BlockReady(w, b, idle);
    InvCurrent(w, idle);
    var y := With(w, w.current, w.table[w.current].(blocker := b, waiting := b, state := Yielded));
    RetireKeeps(y, idle);
    var w0 := Retire(y);
    IdleRuns(w0, idle);
    ChosenCanRun(d, d.ctr, |d.list|);
    RetiredList(w0, idle);
    SearchedLast(w0, w.current, idle, (w.ctr - 1) % |d.list|, w.ctr - 1);
  }

  lemma RetiredList(w: World, idle: nat)
    requires Retired(w, idle)
    ensures NoDuplicates(w.list)
  {
  }

  // ---------- in runs ----------

  /** What the current thread blocks on, if the action is one of the calls that block. */
  function BlockerOf(w: World, a: Action): Blocker
    requires w.current < |w.table|
  {
    match a
    case Sleep(ms) => SleepUntil(w.clock + ms)
    case WaitProcess(pid) => ProcessWait(pid)
    case ReadLine => KeyWait('\n')
    case Join(t) => if t in w.list && t != w.current then ThreadJoin(t) else NoBlocker
    case Receive(id) =>
      var p := FindPipe(w.pipes, id, 0);
      if p < |w.pipes| then PipeWait(CurrentThread(w).pid, p) else NoBlocker
    case _ => NoBlocker
  }

  predicate Blocks(w: World, a: Action)
  {
    w.current < |w.table| && BlockerOf(w, a) != NoBlocker
  }

  lemma BlockingStep(w: World, a: Action, idle: nat)
    requires Inv(w, idle) && Blocks(w, a) && Enabled(w, a, idle)
    ensures var b := BlockerOf(w, a);
            && Next(w, a) == Block(w, b) && w.current != idle && w.table[w.current].waiting == NoBlocker
            && (b.PipeWait? ==> b.pipe < |w.pipes| && b.me == w.table[w.current].pid)
  {
    hide Block, FindPipe;
  }

  /** The step looks for the next thread. */
  predicate Searches(w: World, a: Action)
  {
    w.current < |w.table| && DecisionOf(w, a).Decides?
  }

  /** What is searched is a world in which the idle thread can run. */
  lemma SearchedWorld(w: World, a: Action, idle: nat)
    requires Inv(w, idle) && Enabled(w, a, idle) && Searches(w, a)
    ensures var d := DecisionOf(w, a).w; idle in d.list && CanRun(d, idle)
  {
    hide Inv, Ready, Retired, Retire, KillAll, FindPipe;
    InvCurrent(w, idle);
    if Blocks(w, a) {
      BlockingStep(w, a, idle);
      var b := BlockerOf(w, a);
      BlockReady(w, b, idle);
      RetiredIdle(With(w, w.current, w.table[w.current].(blocker := b, waiting := b, state := Yielded)), idle);
    } else {
      match a
      case Timer =>
        TimerReady(w, idle);
        RetiredIdle(w.(clock := w.clock + 1), idle);
      case Kill =>
        KillReady(w, idle);
        RetiredIdle(With(w, w.current, w.table[w.current].(state := Dead)), idle);
      case Exit(pid) =>
        Killed(w, w.(table := KillAll(w.table, pid)), pid, idle);
        RetiredIdle(w.(table := KillAll(w.table, pid)), idle);
      case _ =>
    }
  }

  lemma RetiredIdle(w: World, idle: nat)
    requires Ready(w, idle)
    ensures w.current < |w.table| && idle in Retire(w).list && CanRun(Retire(w), idle)
  {
    hide Ready, Retire, Retired;
    CurrentExists(w, idle);
    RetireKeeps(w, idle);
    IdleRuns(Retire(w), idle);
  }

  /** Until the next search the current thread and the counter stay. */
  lemma {:induction false} UntilNextSearch(ws: seq<World>, acts: seq<Action>, idle: nat, i: nat, k: nat)
    requires IsRun(ws, acts, idle) && i <= k < |ws|
    requires forall m :: i <= m < k ==> !Searches(ws[m], acts[m])
    ensures ws[k].current == ws[i].current && ws[k].ctr == ws[i].ctr
    decreases k
  {
    hide IsRun, Searches, Next, DecisionOf;
    RunSize(ws, acts, idle);
    if i < k {
      UntilNextSearch(ws, acts, idle, i, k - 1);
      RunStep(ws, acts, idle, k);
      StepDecides(ws[k - 1], acts[k - 1]);
      assert !Searches(ws[k - 1], acts[k - 1]);
      NoSearch(ws[k - 1], acts[k - 1]);
    }
  }

  lemma NoSearch(w: World, a: Action)
    requires w.current < |w.table| && !Searches(w, a)
    ensures DecisionOf(w, a).NoDecision?
  {
  }

  /** In every run: a thread that was chosen in step i and blocks in step k, with no search in between
      and over the same list, is not left stale. */
  lemma NeverStaleOverSameList(ws: seq<World>, acts: seq<Action>, idle: nat, i: nat, k: nat)
    requires IsRun(ws, acts, idle) && i < k < |acts| && Searches(ws[i], acts[i])
    requires forall m :: i < m < k ==> !Searches(ws[m], acts[m])
    requires Blocks(ws[k], acts[k]) && ws[k].list == ws[i + 1].list
    ensures k + 1 < |ws| && ws[k + 1].current < |ws[k + 1].table| && !Stale(ws[k + 1].table[ws[k + 1].current])
  {
    hide IsRun, Inv, Blocks, Next, DecisionOf, Scan, CanRun, Preempt, Enabled, Block, Stale;
    RunSize(ws, acts, idle);
    UntilNextSearch(ws, acts, idle, i + 1, k);
    InvAlways(ws, acts, idle, i);
    InvAlways(ws, acts, idle, k);
    RunEnabled(ws, acts, idle, i);
    RunEnabled(ws, acts, idle, k);
    var d := DecisionOf(ws[i], acts[i]).w;
    SearchedWorld(ws[i], acts[i], idle);
    StepDecides(ws[i], acts[i]);
    DecidersClock(ws[i], acts[i]);
    NewSlice(d);
    SearchChooses(d, idle);
    BlockingStep(ws[k], acts[k], idle);
    BlocksOn(ws[k], acts[k]);
    ChosenIs(d, ws[i + 1]);
    FreshOverSameList(d, ws[k], BlockerOf(ws[k], acts[k]), idle);
  }

  lemma BlocksOn(w: World, a: Action)
    requires Blocks(w, a)
    ensures w.current < |w.table| && BlockerOf(w, a) != NoBlocker
  {
  }

  lemma ChosenIs(d: World, w: World)
    requires |d.list| > 0 && Scan(d, d.ctr, |d.list|).Chosen?
    requires w.current == Scan(d, d.ctr, |d.list|).tid && w.ctr == Scan(d, d.ctr, |d.list|).ctr
    ensures Scan(d, d.ctr, |d.list|) == Chosen(w.current, w.ctr)
  {
  }

  lemma RunEnabled(ws: seq<World>, acts: seq<Action>, idle: nat, n: nat)
    requires IsRun(ws, acts, idle) && n < |acts|
    ensures |ws| == |acts| + 1 && ws[n].current < |ws[n].table| && idle < |ws[n].table|
    ensures Enabled(ws[n], acts[n], idle) && ws[n + 1] == Next(ws[n], acts[n])
  {
    hide Inv, Next, Enabled;
    assert StepOf(ws[n], acts[n], ws[n + 1], idle);
  }

  // ---------- a run from boot ----------

  const FOR_SEVEN: Packet := Packet(0, 7, [])
  const ON_PIPE: Blocker := PipeWait(7, 0)

  const W0: World :=
    World([Thread(Yielded, NoBlocker, 0, 0, NoBlocker), Thread(Runnable, NoBlocker, 0, 0, NoBlocker)],
          [1], 0, 0, 0, [], [])
  const W1: World :=
    World([Thread(Yielded, NoBlocker, 0, 0, NoBlocker), Thread(Runnable, NoBlocker, 0, 0, NoBlocker),
           Thread(Runnable, NoBlocker, 0, 7, NoBlocker)],
          [1, 2], 0, 0, 0, [], [])
  const W2: World :=
    World([Thread(Yielded, NoBlocker, 0, 0, NoBlocker), Thread(Runnable, NoBlocker, 0, 0, NoBlocker),
           Thread(Runnable, NoBlocker, 0, 7, NoBlocker)],
          [1, 2], 0, 0, 0, [], [Pipe("p", 1, 0, false, [])])
  const W3: World :=
    World([Thread(Yielded, NoBlocker, 0, 0, NoBlocker), Thread(Runnable, NoBlocker, 0, 0, NoBlocker),
           Thread(Runnable, NoBlocker, 0, 7, NoBlocker)],
          [1, 2], 0, 0, 0, [], [Pipe("p", 1, 0, false, [FOR_SEVEN])])
  const W4: World :=
    World([Thread(Runnable, NoBlocker, 0, 0, NoBlocker), Thread(Running, NoBlocker, 1, 0, NoBlocker),
           Thread(Runnable, NoBlocker, 0, 7, NoBlocker)],
          [1, 2], 1, 1, 1, [], [Pipe("p", 1, 0, false, [FOR_SEVEN])])
  const W5: World :=
    World([Thread(Runnable, NoBlocker, 0, 0, NoBlocker), Thread(Yielded, NoBlocker, 1, 0, NoBlocker),
           Thread(Runnable, NoBlocker, 0, 7, NoBlocker)],
          [1, 2], 1, 1, 1, [], [Pipe("p", 1, 0, false, [FOR_SEVEN])])
  const W6: World :=
    World([Thread(Runnable, NoBlocker, 0, 0, NoBlocker), Thread(Runnable, NoBlocker, 1, 0, NoBlocker),
           Thread(Running, NoBlocker, 2, 7, NoBlocker)],
          [1, 2], 2, 2, 2, [], [Pipe("p", 1, 0, false, [FOR_SEVEN])])
  const W7: World :=
    World([Thread(Runnable, NoBlocker, 0, 0, NoBlocker), Thread(Running, NoBlocker, 2, 0, NoBlocker),
           Thread(Runnable, SleepUntil(2), 2, 7, SleepUntil(2))],
          [1, 2], 3, 1, 2, [], [Pipe("p", 1, 0, false, [FOR_SEVEN])])
  const W8: World :=
    World([Thread(Runnable, NoBlocker, 0, 0, NoBlocker), Thread(Yielded, NoBlocker, 2, 0, NoBlocker),
           Thread(Runnable, SleepUntil(2), 2, 7, SleepUntil(2))],
          [1, 2], 3, 1, 2, [], [Pipe("p", 1, 0, false, [FOR_SEVEN])])
  const W9: World :=
    World([Thread(Runnable, NoBlocker, 0, 0, NoBlocker), Thread(Runnable, NoBlocker, 2, 0, NoBlocker),
           Thread(Running, NoBlocker, 3, 7, SleepUntil(2))],
          [1, 2], 4, 2, 3, [], [Pipe("p", 1, 0, false, [FOR_SEVEN])])
  const W10: World :=
    World([Thread(Runnable, NoBlocker, 0, 0, NoBlocker), Thread(Runnable, NoBlocker, 2, 0, NoBlocker),
           Thread(Running, NoBlocker, 3, 7, NoBlocker)],
          [1, 2], 4, 2, 3, [], [Pipe("p", 1, 0, false, [FOR_SEVEN])])
  const W11: World :=
    World([Thread(Runnable, NoBlocker, 0, 0, NoBlocker), Thread(Runnable, NoBlocker, 2, 0, NoBlocker),
           Thread(Running, NoBlocker, 3, 7, NoBlocker), Thread(Runnable, NoBlocker, 0, 8, NoBlocker)],
          [1, 2, 3], 4, 2, 3, [], [Pipe("p", 1, 0, false, [FOR_SEVEN])])
  const W12: World :=
    World([Thread(Runnable, NoBlocker, 0, 0, NoBlocker), Thread(Runnable, NoBlocker, 2, 0, NoBlocker),
           Thread(Runnable, ON_PIPE, 3, 7, ON_PIPE), Thread(Runnable, NoBlocker, 0, 8, NoBlocker)],
          [1, 2, 3], 5, 2, 3, [], [Pipe("p", 1, 0, false, [FOR_SEVEN])])
  const W13: World :=
    World([Thread(Runnable, NoBlocker, 0, 0, NoBlocker), Thread(Runnable, NoBlocker, 2, 0, NoBlocker),
           Thread(Runnable, ON_PIPE, 3, 7, NoBlocker), Thread(Runnable, NoBlocker, 0, 8, NoBlocker)],
          [1, 2, 3], 5, 2, 3, [], [Pipe("p", 1, 0, false, [])])

  lemma Step0()
    ensures StepOf(W0, Spawn(7), W1, 1)
  {
  }

  lemma Step1()
    ensures StepOf(W1, Open("p"), W2, 1)
  {
  }

  lemma Step2()
    ensures StepOf(W2, Send(1, 7, []), W3, 1)
  {
    assert FindPipe(W2.pipes, 1, 0) == 0;
    var none: seq<Packet> := [];
    assert none + [FOR_SEVEN] == [FOR_SEVEN];
    assert W3 == W2.(pipes := [Pipe("p", 1, 0, false, [FOR_SEVEN])]);
  }

  lemma Step3()
    ensures StepOf(W3, Timer, W4, 1)
  {
    var d := W3.(clock := 1, table := W3.table[0 := Thread(Runnable, NoBlocker, 0, 0, NoBlocker)]);
    assert Retire(W3.(clock := 1)) == d;
    assert CanRun(d, 1) && Scan(d, 0, 2) == Chosen(1, 1);
  }

  lemma Step4()
    ensures StepOf(W4, Idle, W5, 1)
  {
  }

  lemma Step5()
    ensures StepOf(W5, Timer, W6, 1)
  {
    var d := W5.(clock := 2, table := W5.table[1 := Thread(Runnable, NoBlocker, 1, 0, NoBlocker)]);
    assert Retire(W5.(clock := 2)) == d;
    assert CanRun(d, 2) && Scan(d, 1, 2) == Chosen(2, 2);
  }

  lemma Step6()
    ensures StepOf(W6, Sleep(0), W7, 1)
  {
    var d := W6.(table := W6.table[2 := Thread(Runnable, SleepUntil(2), 2, 7, SleepUntil(2))]);
    assert BlockedWorld(W6, SleepUntil(2)) == d;
    assert CanRun(d, 1) && Scan(d, 2, 2) == Chosen(1, 3);
  }

  lemma Step7()
    ensures StepOf(W7, Idle, W8, 1)
  {
  }

  lemma Step8()
    ensures StepOf(W8, Timer, W9, 1)
  {
    var d := W8.(clock := 3, table := W8.table[1 := Thread(Runnable, NoBlocker, 2, 0, NoBlocker)]);
    assert Retire(W8.(clock := 3)) == d;
    assert CanRun(d, 2) && Scan(d, 3, 2) == Chosen(2, 4);
  }

  lemma Step9()
    ensures StepOf(W9, Return(0), W10, 1)
  {
  }

  lemma Step10()
    ensures StepOf(W10, Spawn(8), W11, 1)
  {
  }

  lemma Step11()
    ensures StepOf(W11, Receive(1), W12, 1)
  {
    assert FindPipe(W11.pipes, 1, 0) == 0;
    var d := W11.(table := W11.table[2 := Thread(Runnable, ON_PIPE, 3, 7, ON_PIPE)]);
    assert BlockedWorld(W11, ON_PIPE) == d;
    assert HasPacket([FOR_SEVEN], 7) by { assert [FOR_SEVEN][0].dst == 7; }
    assert CanRun(d, 2) && Scan(d, 4, 3) == Chosen(2, 5);
  }

  lemma Step12()
    ensures StepOf(W12, Return(16), W13, 1)
  {
    assert FirstFor([FOR_SEVEN], 7, 0) == 0;
  }

  lemma {:induction false} RunOn(ws: seq<World>, acts: seq<Action>, idle: nat, a: Action, w: World)
    requires IsRun(ws, acts, idle) && StepOf(ws[|acts|], a, w, idle)
    ensures IsRun(ws + [w], acts + [a], idle)
  {
    hide StepOf, Inv;
    var xs, bs := ws + [w], acts + [a];
    forall i | 0 <= i < |bs|
      ensures StepOf(xs[i], bs[i], xs[i + 1], idle)
    {
      if i < |acts| {
        assert StepOf(ws[i], acts[i], ws[i + 1], idle);
      }
    }
  }

  lemma BootRun() returns (ws: seq<World>, acts: seq<Action>)
    ensures IsRun(ws, acts, 1) && |ws| == |acts| + 1 && ws[0] == W0 && ws[|acts|] == W13
  {
    hide IsRun, StepOf;
    ws, acts := Booted();
    Step0();
    ws, acts := Extended(ws, acts, Spawn(7), W1);
    Step1();
    ws, acts := Extended(ws, acts, Open("p"), W2);
    Step2();
    ws, acts := Extended(ws, acts, Send(1, 7, []), W3);
    Step3();
    ws, acts := Extended(ws, acts, Timer, W4);
    Step4();
    ws, acts := Extended(ws, acts, Idle, W5);
    Step5();
    ws, acts := Extended(ws, acts, Timer, W6);
    Step6();
    ws, acts := Extended(ws, acts, Sleep(0), W7);
    Step7();
    ws, acts := Extended(ws, acts, Idle, W8);
    Step8();
    ws, acts := Extended(ws, acts, Timer, W9);
    Step9();
    ws, acts := Extended(ws, acts, Return(0), W10);
    Step10();
    ws, acts := Extended(ws, acts, Spawn(8), W11);
    Step11();
    ws, acts := Extended(ws, acts, Receive(1), W12);
    Step12();
    ws, acts := Extended(ws, acts, Return(16), W13);
  }

  lemma Booted() returns (ws: seq<World>, acts: seq<Action>)
    ensures IsRun(ws, acts, 1) && |ws| == |acts| + 1 && ws[0] == W0 && ws[|acts|] == W0
  {
    ws, acts := [W0], [];
    BootIsFine(0);
  }

  lemma Extended(ws0: seq<World>, acts0: seq<Action>, a: Action, w: World) returns (ws: seq<World>, acts: seq<Action>)
    requires IsRun(ws0, acts0, 1) && |ws0| == |acts0| + 1 && ws0[0] == W0 && StepOf(ws0[|acts0|], a, w, 1)
    ensures IsRun(ws, acts, 1) && |ws| == |acts| + 1 && ws[0] == W0 && ws[|acts|] == w
  {
    hide IsRun, StepOf;
    RunOn(ws0, acts0, 1, a, w);
    ws, acts := ws0 + [w], acts0 + [a];
  }

  /** The packet is gone, so the next timer tick takes the thread for blocked. */
  lemma LosesItsTurn()
    ensures IsBlocked(W13, ON_PIPE) && !IsBlocked(W13, W13.table[2].waiting) && Next(W13, Timer).current == 3
  {
    var d := W13.(clock := 4);
    assert Retire(W13.(clock := 4)) == d;
    assert CanRun(d, 3) && Scan(d, 5, 3) == Chosen(3, 6);
  }

  /** A run from boot, with a thread that sleeps, starts another thread and receives a packet that is
      already there. It goes on stale, waits for nothing, and is taken for blocked. */
  lemma StaleBlocker() returns (ws: seq<World>, acts: seq<Action>)
    ensures IsRun(ws, acts, 1) && |ws| == |acts| + 1
    ensures ws[0] == World([Thread(Yielded, NoBlocker, 0, 0, NoBlocker), Thread(Runnable, NoBlocker, 0, 0, NoBlocker)],
                           [1], 0, 0, 0, [], [])
    ensures var w := ws[|acts|];
            && w.current < |w.table| && Stale(w.table[w.current]) && w.table[w.current].waiting == NoBlocker
            && IsBlocked(w, w.table[w.current].blocker) && Next(w, Timer).current != w.current
  {
    hide IsRun, Next, IsBlocked;
    ws, acts := BootRun();
    LosesItsTurn();
  }
}
