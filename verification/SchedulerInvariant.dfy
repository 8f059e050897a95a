/**
 What every step keeps, and what follows for all runs: only the current thread is running, the dead
 stay dead and are never chosen, there is always somebody to run, and Block returns only when what
 was waited for has happened.
 */
module SchedulerInvariants {
  import opened SchedulerModel

  ghost predicate NoDuplicates(list: seq<nat>)
  {
    forall i, j :: 0 <= i < j < |list| ==> list[i] != list[j]
  }

  /** Facts about the tables that hold even in the middle of a step. */
  ghost predicate Tables(w: World, idle: nat)
  {
    && w.current < |w.table| && idle < |w.table|
    && NoDuplicates(w.list) && (forall i :: 0 <= i < |w.list| ==> w.list[i] < |w.table|)
    && idle in w.list
    && w.table[idle].state != Dead && w.table[idle].blocker == NoBlocker && w.table[idle].waiting == NoBlocker
    && (forall t :: 0 <= t < |w.table| ==> w.table[t].slice <= w.clock)
    && (forall t :: 0 <= t < |w.table| && w.table[t].waiting.PipeWait? ==>
          w.table[t].waiting.pipe < |w.pipes| && w.table[t].waiting.me == w.table[t].pid)
  }

  /** A thread that is inside Block has its blocker set. */
  ghost predicate BlockerSet(th: Thread)
  {
    th.state != Dead && th.waiting != NoBlocker ==> th.blocker == th.waiting
  }

  /** The invariant between steps. */
  ghost predicate Inv(w: World, idle: nat)
  {
    && Tables(w, idle)
    && w.table[w.current].state != Dead
    && (forall t :: 0 <= t < |w.table| && t != w.current ==> w.table[t].state == Runnable || w.table[t].state == Dead)
    && (forall t :: 0 <= t < |w.table| && t != w.current ==> BlockerSet(w.table[t]))
    && !IsBlocked(w, w.table[w.current].waiting)
  }

  /** What holds when the scheduler is called: the current thread may be in any state. */
  ghost predicate Ready(w: World, idle: nat)
  {
    && Tables(w, idle)
    && (forall t :: 0 <= t < |w.table| && t != w.current ==> w.table[t].state == Runnable || w.table[t].state == Dead)
    && (forall t :: 0 <= t < |w.table| ==> BlockerSet(w.table[t]))
  }

  // ---------- somebody can always run ----------

  /** The remainder of q rounds of n, plus k. */
  lemma ModUnique(q: nat, n: nat, k: nat)
    requires k < n
    ensures (q * n + k) % n == k
  {
    var x := q * n + k;
    var q' := x / n;
    MoreRounds(q, q', n);
    MoreRounds(q', q, n);
  }

  lemma {:induction false} MoreRounds(q: nat, p: nat, n: nat)
    ensures q < p ==> q * n + n <= p * n
  {
    if q < p {
      MoreRounds(q, p - 1, n);
      assert p * n == (p - 1) * n + n;
    }
  }

  /** Within n probes every index is looked at. */
  lemma ProbeHits(c: nat, n: nat, k: nat) returns (d: nat)
    requires k < n
    ensures d < n && (c + d) % n == k
  {
    var q, r := c / n, c % n;
    assert c == q * n + r;
    if k >= r {
      d := k - r;
      ModUnique(q, n, k);
    } else {
      d := k + n - r;
      assert (q + 1) * n + k == c + d;
      ModUnique(q + 1, n, k);
    }
  }

  /** A probe that hits ends the scan there or earlier. */
  lemma {:induction false} ScanFinds(w: World, ctr: nat, n: nat, d: nat)
    requires |w.list| > 0 && d < n && CanRun(w, w.list[(ctr + d) % |w.list|])
    ensures Scan(w, ctr, n).Chosen? && Scan(w, ctr, n).ctr <= ctr + d + 1
    decreases n
  {
    if !CanRun(w, w.list[ctr % |w.list|]) {
      ScanFinds(w, ctr + 1, n - 1, d - 1);
    }
  }

  /** What is chosen can run, and is in the list. */
  lemma {:induction false} ChosenCanRun(w: World, ctr: nat, n: nat)
    requires |w.list| > 0 && Scan(w, ctr, n).Chosen?
    ensures var c := Scan(w, ctr, n);
            && CanRun(w, c.tid) && c.tid in w.list && ctr < c.ctr <= ctr + n && c.tid == w.list[(c.ctr - 1) % |w.list|]
    decreases n
  {
    var t := w.list[ctr % |w.list|];
    if !CanRun(w, t) {
      ChosenCanRun(w, ctr + 1, n - 1);
    }
  }

  /** FindNextThread stops: a list with a thread that can run is searched at most once around. */
  lemma SomebodyRuns(w: World, t: nat)
    requires t in w.list && CanRun(w, t)
    ensures Scan(w, w.ctr, |w.list|).Chosen?
  {
    var k :| 0 <= k < |w.list| && w.list[k] == t;
    var d := ProbeHits(w.ctr, |w.list|, k);
    ScanFinds(w, w.ctr, |w.list|, d);
  }

  // ---------- one scheduling decision ----------

  lemma {:induction false} WithoutKeeps(list: seq<nat>, t: nat)
    requires NoDuplicates(list)
    ensures forall x :: x in Without(list, t) <==> x in list && x != t
    ensures NoDuplicates(Without(list, t))
  {
    if |list| > 0 {
      assert NoDuplicates(list[1..]);
      WithoutKeeps(list[1..], t);
      if list[0] == t {
        forall i | 0 <= i < |list[1..]|
          ensures list[1..][i] != t
        {
          assert list[1..][i] == list[i + 1];
        }
      } else {
        assert list == [list[0]] + list[1..];
        forall i | 0 <= i < |list[1..]|
          ensures list[1..][i] != list[0]
        {
          assert list[1..][i] == list[i + 1];
        }
        assert list[0] !in list[1..];
        ConsNoDuplicates(list[0], Without(list[1..], t));
      }
    }
  }

  lemma ConsNoDuplicates(x: nat, s: seq<nat>)
    requires NoDuplicates(s) && x !in s
    ensures NoDuplicates([x] + s)
  {
    var r := [x] + s;
    forall i, j | 0 <= i < j < |r|
      ensures r[i] != r[j]
    {
      assert r[j] == s[j - 1] && (i > 0 ==> r[i] == s[i - 1]);
    }
  }

  /** Blockers look at nothing that scheduling changes. */
  lemma SameBlocked(w: World, w': World, b: Blocker)
    requires |w.table| == |w'.table| && w.clock == w'.clock && w.keys == w'.keys && w.pipes == w'.pipes
    requires forall t :: 0 <= t < |w.table| ==>
               w.table[t].pid == w'.table[t].pid && (w.table[t].state == Dead <==> w'.table[t].state == Dead)
    ensures IsBlocked(w, b) == IsBlocked(w', b)
  {
    match b
    case ProcessWait(pid) =>
      assert IsRunning(w, pid) ==> IsRunning(w', pid) by {
        if t :| 0 <= t < |w.table| && w.table[t].pid == pid && w.table[t].state != Dead {
          assert w'.table[t].state != Dead;
        }
      }
      assert IsRunning(w', pid) ==> IsRunning(w, pid) by {
        if t :| 0 <= t < |w'.table| && w'.table[t].pid == pid && w'.table[t].state != Dead {
          assert w.table[t].state != Dead;
        }
      }
    case _ =>
  }

  ghost predicate Retired(w: World, idle: nat)
  {
    && Tables(w, idle)
    && (forall t :: 0 <= t < |w.table| ==> w.table[t].state == Runnable || w.table[t].state == Dead)
    && (forall t :: 0 <= t < |w.table| ==> BlockerSet(w.table[t]))
  }

  lemma RetireKeeps(w: World, idle: nat)
    requires Ready(w, idle)
    ensures Retired(Retire(w), idle)
  {
    if w.table[w.current].state == Dead {
      WithoutKeeps(w.list, w.current);
      var w' := Retire(w);
      forall i | 0 <= i < |w'.list|
        ensures w'.list[i] < |w'.table|
      {
        assert w'.list[i] in w.list;
      }
    }
  }

  lemma SwitchKeeps(w: World, t: nat, idle: nat)
    requires Retired(w, idle) && CanRun(w, t)
    ensures Inv(SwitchTo(w, t), idle)
  {
    var w' := SwitchTo(w, t);
    SameBlocked(w, w', w.table[t].waiting);
    if w.table[t].waiting != NoBlocker {
      assert BlockerSet(w.table[t]);
    }
  }

  /** A call of the scheduler that makes a choice ends in a good state. */
  lemma PreemptKeeps(w: World, idle: nat)
    requires Ready(w, idle)
    ensures Inv(Preempt(Retire(w)), idle)
  {
    hide Inv, Ready, Without, Scan, SwitchTo, Retire;
    CurrentExists(w, idle);
    RetireKeeps(w, idle);
    var r := Retire(w);
    IdleRuns(r, idle);
    SomebodyRuns(r, idle);
    ChosenCanRun(r, r.ctr, |r.list|);
    var c := Scan(r, r.ctr, |r.list|);
    CounterIgnored(r, c.ctr, c.tid, idle);
    SwitchKeeps(r.(ctr := c.ctr), c.tid, idle);
  }

  lemma CurrentExists(w: World, idle: nat)
    requires Ready(w, idle)
    ensures w.current < |w.table|
  {
  }

  lemma CounterIgnored(w: World, c: nat, t: nat, idle: nat)
    requires Retired(w, idle) && CanRun(w, t)
    ensures Retired(w.(ctr := c), idle) && CanRun(w.(ctr := c), t)
  {
    SameBlocked(w, w.(ctr := c), w.table[t].blocker);
  }

  lemma IdleRuns(w: World, idle: nat)
    requires Retired(w, idle)
    ensures idle in w.list && CanRun(w, idle)
  {
  }

  lemma InterruptKeeps(w: World, idle: nat)
    requires Ready(w, idle) && (w.table[w.current].state == Running ==> !IsBlocked(w, w.table[w.current].waiting))
    ensures Inv(Interrupt(w), idle)
  {
    hide Preempt, Retire;
    var c := w.table[w.current];
    if c.state != Running || w.clock - c.slice > 25 {
      PreemptKeeps(w, idle);
    }
  }

  // ---------- every step ----------

  lemma BlockKeeps(w: World, b: Blocker, idle: nat)
    requires Inv(w, idle) && w.current != idle && w.table[w.current].waiting == NoBlocker
    requires b.PipeWait? ==> b.pipe < |w.pipes| && b.me == w.table[w.current].pid
    ensures Inv(Block(w, b), idle)
  {
    hide Interrupt;
    InterruptKeeps(With(w, w.current, w.table[w.current].(blocker := b, waiting := b, state := Yielded)), idle);
  }

  /** The scheduler may be called in the middle of Block, of Kill and of a timer tick. */
  lemma BlockReady(w: World, b: Blocker, idle: nat)
    requires Inv(w, idle) && w.current != idle && w.table[w.current].waiting == NoBlocker
    requires b.PipeWait? ==> b.pipe < |w.pipes| && b.me == w.table[w.current].pid
    ensures Ready(With(w, w.current, w.table[w.current].(blocker := b, waiting := b, state := Yielded)), idle)
  {
  }

  lemma KillReady(w: World, idle: nat)
    requires Inv(w, idle) && w.current != idle && w.table[w.current].waiting == NoBlocker
    ensures Ready(With(w, w.current, w.table[w.current].(state := Dead)), idle)
  {
  }

  lemma TimerReady(w: World, idle: nat)
    requires Inv(w, idle) && w.table[w.current].waiting == NoBlocker
    ensures Ready(w.(clock := w.clock + 1), idle)
  {
  }

  lemma TimerKeeps(w: World, idle: nat)
    requires Inv(w, idle) && w.table[w.current].waiting == NoBlocker
    ensures Inv(Next(w, Timer), idle)
  {
    hide Interrupt;
    InterruptKeeps(w.(clock := w.clock + 1), idle);
  }

  lemma KillKeeps(w: World, idle: nat)
    requires Inv(w, idle) && w.current != idle && w.table[w.current].waiting == NoBlocker
    ensures Inv(Next(w, Kill), idle)
  {
    hide Interrupt;
    InterruptKeeps(With(w, w.current, w.table[w.current].(state := Dead)), idle);
  }

  lemma ExitKeeps(w: World, pid: nat, idle: nat)
    requires Inv(w, idle) && w.table[w.current].waiting == NoBlocker && pid != w.table[idle].pid
    ensures Inv(Next(w, Exit(pid)), idle)
  {
    hide Interrupt, KillAll;
    var w' := w.(table := KillAll(w.table, pid));
    Killed(w, w', pid, idle);
    if w.table[w.current].pid == pid {
      InterruptKeeps(w', idle);
    }
  }

  lemma Killed(w: World, w': World, pid: nat, idle: nat)
    requires Inv(w, idle) && w.table[w.current].waiting == NoBlocker && pid != w.table[idle].pid
    requires w' == w.(table := KillAll(w.table, pid))
    ensures Ready(w', idle) && (w.table[w.current].pid == pid ==> w'.table[w.current].state == Dead)
    ensures w.table[w.current].pid != pid ==> Inv(w', idle)
  {
  }

  lemma SpawnKeeps(w: World, pid: nat, idle: nat)
    requires Inv(w, idle) && w.table[w.current].waiting == NoBlocker
    ensures Inv(Next(w, Spawn(pid)), idle)
  {
  }

  /** Steps that change pipes or keys only. */
  lemma OthersKeep(w: World, w': World, idle: nat)
    requires Inv(w, idle) && w.table[w.current].waiting == NoBlocker
    requires w' == w.(keys := w'.keys, pipes := w'.pipes) && |w'.pipes| >= |w.pipes|
    ensures Inv(w', idle)
  {
  }

  lemma IdleKeeps(w: World, idle: nat)
    requires Inv(w, idle) && w.current == idle
    ensures Inv(Next(w, Idle), idle)
  {
  }

  lemma ReturnKeeps(w: World, maxSize: nat, idle: nat)
    requires Inv(w, idle) && w.table[w.current].waiting != NoBlocker
    ensures Inv(Next(w, Return(maxSize)), idle)
  {
    hide ReadKeys, TakePacket;
    var c := w.table[w.current];
    var w1 := With(w, w.current, c.(waiting := NoBlocker));
    assert Inv(w1, idle);
    OthersKeep(w1, Finish(w, maxSize), idle);
  }

  /** Every enabled step keeps the invariant. */
  lemma NextKeeps(w: World, a: Action, idle: nat)
    requires Inv(w, idle) && Enabled(w, a, idle)
    ensures Inv(Next(w, a), idle)
  {
    hide Inv, Interrupt, KillAll, Block, Finish;
    InvCurrent(w, idle);
    match a
    case Timer => TimerKeeps(w, idle);
    case Idle => IdleKeeps(w, idle);
    case KeyPress(k) => OthersKeep(w, Next(w, a), idle);
    case Spawn(pid) => SpawnKeeps(w, pid, idle);
    case Kill => KillKeeps(w, idle);
    case Exit(pid) => ExitKeeps(w, pid, idle);
    case Sleep(ms) => BlockKeeps(w, SleepUntil(w.clock + ms), idle);
    case WaitProcess(pid) => BlockKeeps(w, ProcessWait(pid), idle);
    case ReadLine => BlockKeeps(w, KeyWait('\n'), idle);
    case Join(t) => if t in w.list && t != w.current { BlockKeeps(w, ThreadJoin(t), idle); }
    case Receive(id) =>
      var p := FindPipe(w.pipes, id, 0);
      if p < |w.pipes| { BlockKeeps(w, PipeWait(w.table[w.current].pid, p), idle); }
    case Send(id, dst, data) => OthersKeep(w, Next(w, a), idle);
    case Open(name) => OthersKeep(w, Next(w, a), idle);
    case Close(id) => OthersKeep(w, Next(w, a), idle);
    case Return(maxSize) => ReturnKeeps(w, maxSize, idle);
  }

  lemma InvCurrent(w: World, idle: nat)
    requires Inv(w, idle)
    ensures w.current < |w.table| && idle < |w.table|
    ensures w.current == idle ==> w.table[w.current].waiting == NoBlocker
  {
  }

  // ---------- the dead ----------

  lemma InterruptLeavesDead(w: World, t: nat)
    requires w.current < |w.table| && t < |w.table| && w.table[t].state == Dead
    ensures var w' := Interrupt(w); t < |w'.table| && w'.table[t].state == Dead
  {
    hide Without, Scan, IsBlocked;
    var r := Retire(w);
    if |r.list| > 0 && Scan(r, r.ctr, |r.list|).Chosen? {
      ChosenCanRun(r, r.ctr, |r.list|);
    }
  }

  /** No step revives a thread. */
  lemma DeadStaysDead(w: World, a: Action, t: nat)
    requires w.current < |w.table| && t < |w.table| && w.table[t].state == Dead
    requires w.table[w.current].state != Dead
    ensures var w' := Next(w, a); t < |w'.table| && w'.table[t].state == Dead
  {
    hide Interrupt, KillAll, ReadKeys, TakePacket, FindPipe, FindName;
    var c := w.table[w.current];
    match a
    case Timer => InterruptLeavesDead(w.(clock := w.clock + 1), t);
    case Kill => InterruptLeavesDead(With(w, w.current, c.(state := Dead)), t);
    case Exit(pid) =>
      KilledIsDead(w, pid, t);
      InterruptLeavesDead(w.(table := KillAll(w.table, pid)), t);
    case Sleep(ms) => BlockLeavesDead(w, SleepUntil(w.clock + ms), t);
    case WaitProcess(pid) => BlockLeavesDead(w, ProcessWait(pid), t);
    case ReadLine => BlockLeavesDead(w, KeyWait('\n'), t);
    case Join(x) => BlockLeavesDead(w, ThreadJoin(x), t);
    case Receive(id) => BlockLeavesDead(w, PipeWait(c.pid, FindPipe(w.pipes, id, 0)), t);
    case _ =>
  }

  lemma BlockLeavesDead(w: World, b: Blocker, t: nat)
    requires w.current < |w.table| && t < |w.table| && w.table[t].state == Dead && t != w.current
    ensures var w' := Block(w, b); t < |w'.table| && w'.table[t].state == Dead
  {
    hide Interrupt;
    InterruptLeavesDead(With(w, w.current, w.table[w.current].(blocker := b, waiting := b, state := Yielded)), t);
  }

  lemma KilledIsDead(w: World, pid: nat, t: nat)
    requires t < |w.table| && w.table[t].state == Dead
    ensures |KillAll(w.table, pid)| == |w.table| && KillAll(w.table, pid)[t].state == Dead
  {
  }

  // ---------- runs ----------

  ghost predicate IsRun(ws: seq<World>, acts: seq<Action>, idle: nat)
  {
    && |ws| == |acts| + 1 && Inv(ws[0], idle)
    && forall i :: 0 <= i < |acts| ==> StepOf(ws[i], acts[i], ws[i + 1], idle)
  }

  ghost predicate StepOf(w: World, a: Action, w': World, idle: nat)
  {
    w.current < |w.table| && idle < |w.table| && Enabled(w, a, idle) && w' == Next(w, a)
  }

  lemma {:induction false} InvAlways(ws: seq<World>, acts: seq<Action>, idle: nat, i: nat)
    requires IsRun(ws, acts, idle) && i < |ws|
    ensures Inv(ws[i], idle)
  {
    hide Inv, Enabled, Next;
    if i > 0 {
      InvAlways(ws, acts, idle, i - 1);
      assert StepOf(ws[i - 1], acts[i - 1], ws[i - 1 + 1], idle);
      NextKeeps(ws[i - 1], acts[i - 1], idle);
    }
  }

  /** In every reachable state a running thread is the current one, and the current one is not dead. */
  lemma RunningIsCurrent(ws: seq<World>, acts: seq<Action>, idle: nat, i: nat, t: nat)
    requires IsRun(ws, acts, idle) && i < |ws| && t < |ws[i].table|
    ensures ws[i].table[t].state == Running ==> t == ws[i].current
    ensures ws[i].table[t].state == Dead ==> t != ws[i].current
  {
    InvAlways(ws, acts, idle, i);
  }

  /** Once dead, dead in every later state, and never current again. */
  lemma {:induction false} DeadForever(ws: seq<World>, acts: seq<Action>, idle: nat, i: nat, k: nat, t: nat)
    requires IsRun(ws, acts, idle) && i <= k < |ws| && t < |ws[i].table| && ws[i].table[t].state == Dead
    ensures t < |ws[k].table| && ws[k].table[t].state == Dead && ws[k].current != t
    decreases k
  {
    hide Inv, Enabled, Next;
    InvAlways(ws, acts, idle, k);
    CurrentAlive(ws[k], idle);
    if i < k {
      DeadForever(ws, acts, idle, i, k - 1, t);
      InvAlways(ws, acts, idle, k - 1);
      CurrentAlive(ws[k - 1], idle);
      assert StepOf(ws[k - 1], acts[k - 1], ws[k - 1 + 1], idle);
      DeadStaysDead(ws[k - 1], acts[k - 1], t);
    }
  }

  lemma CurrentAlive(w: World, idle: nat)
    requires Inv(w, idle)
    ensures w.current < |w.table| && w.table[w.current].state != Dead
  {
  }

  /** In every run, a call of Block returns only in a state where its blocker does not block. */
  lemma BlockReturnsUnblocked(ws: seq<World>, acts: seq<Action>, idle: nat, i: nat)
    requires IsRun(ws, acts, idle) && i < |acts| && acts[i].Return?
    ensures ws[i].current < |ws[i].table|
    ensures var b := ws[i].table[ws[i].current].waiting; b != NoBlocker && !IsBlocked(ws[i], b)
  {
    InvAlways(ws, acts, idle, i);
    assert StepOf(ws[i], acts[i], ws[i + 1], idle);
  }

  /** So a receiver always finds the pipe broken or a packet for its process, however many threads of
      the process receive at once. */
  lemma ReceiveFindsPacket(ws: seq<World>, acts: seq<Action>, idle: nat, i: nat)
    requires IsRun(ws, acts, idle) && i < |acts| && acts[i].Return? && ws[i].current < |ws[i].table|
    requires ws[i].table[ws[i].current].waiting.PipeWait?
    ensures var b := ws[i].table[ws[i].current].waiting;
            && b.pipe < |ws[i].pipes| && b.me == ws[i].table[ws[i].current].pid
            && TakePacket(ws[i].pipes[b.pipe], b.me) != Wtf
  {
    BlockReturnsUnblocked(ws, acts, idle, i);
    InvAlways(ws, acts, idle, i);
    var b := ws[i].table[ws[i].current].waiting;
    var packets := ws[i].pipes[b.pipe].packets;
    if HasPacket(packets, b.me) {
      var k :| 0 <= k < |packets| && packets[k].dst == b.me;
      assert FirstFor(packets, b.me, 0) <= k;
    }
  }

  /** The state in which the scheduler starts: the boot code as a thread that is not in the list, and
      the idle thread. */
  lemma BootIsFine(pid: nat)
    ensures Inv(World([Thread(Yielded, NoBlocker, 0, pid, NoBlocker), Thread(Runnable, NoBlocker, 0, pid, NoBlocker)],
                      [1], 0, 0, 0, [], []), 1)
  {
  }

  // ---------- waiting for a turn ----------

  /** Decisions over a list that does not change: each starts where the one before stopped. */
  ghost predicate Decisions(ws: seq<World>, list: seq<nat>)
  {
    && |list| > 0
    && (forall i :: 0 <= i < |ws| ==> ws[i].list == list && Scan(ws[i], ws[i].ctr, |list|).Chosen?)
    && forall i :: 0 <= i < |ws| - 1 ==> ws[i + 1].ctr == Scan(ws[i], ws[i].ctr, |list|).ctr
  }

  lemma {:induction false} TurnComes(ws: seq<World>, list: seq<nat>, k: nat, target: nat, i: nat) returns (j: nat)
    requires Decisions(ws, list) && k < |list| && target % |list| == k
    requires forall m :: 0 <= m < |ws| ==> CanRun(ws[m], list[k])
    requires i < |ws| && ws[i].ctr <= target < ws[i].ctr + |ws| - i && target - ws[i].ctr < |list|
    ensures i <= j < |ws| && Scan(ws[j], ws[j].ctr, |list|).tid == list[k]
    decreases |ws| - i
  {
    hide CanRun;
    var w := ws[i];
    ScanFinds(w, w.ctr, |list|, target - w.ctr);
    ChosenCanRun(w, w.ctr, |list|);
    var c := Scan(w, w.ctr, |list|);
    if c.ctr == target + 1 {
      j := i;
    } else {
      j := TurnComes(ws, list, k, target, i + 1);
    }
  }

  /** A thread that can run at every decision is chosen within as many decisions as there are threads in
      the list. */
  lemma BoundedWaiting(ws: seq<World>, list: seq<nat>, t: nat) returns (j: nat)
    requires Decisions(ws, list) && |ws| == |list| && t in list
    requires forall m :: 0 <= m < |ws| ==> CanRun(ws[m], t)
    ensures j < |list| && Scan(ws[j], ws[j].ctr, |list|).tid == t
  {
    hide CanRun;
    var k :| 0 <= k < |list| && list[k] == t;
    var d := ProbeHits(ws[0].ctr, |list|, k);
    j := TurnComes(ws, list, k, ws[0].ctr + d, 0);
  }
}
