/**
 What a thread finds when a waiting system call returns, and when it can run again, said of the clock, the
 keys and the threads themselves: over every run, from the call that gave up the processor to its return.
 */
module SchedulerReturns {
  import opened SchedulerModel
  import opened SchedulerInvariants

  /** From the call that thread t makes at step i up to step k, t has not returned from it. */
  ghost predicate InCall(ws: seq<World>, acts: seq<Action>, idle: nat, t: nat, i: nat, k: nat)
  {
    && IsRun(ws, acts, idle) && i < k < |ws| && t == ws[i].current
    && forall m :: i < m < k ==> !(acts[m].Return? && ws[m].current == t)
  }

  /** Steps of the scheduler leave alone what threads wait for. */
  lemma InterruptKeepsWaiting(w: World, t: nat)
    requires w.current < |w.table| && t < |w.table|
    ensures var w' := Interrupt(w); t < |w'.table| && w'.table[t].waiting == w.table[t].waiting
  {
    hide Without, Scan, IsBlocked;
    var r := Retire(w);
    if |r.list| > 0 && Scan(r, r.ctr, |r.list|).Chosen? {
      ChosenCanRun(r, r.ctr, |r.list|);
    }
  }

  lemma BlockKeepsWaiting(w: World, b: Blocker, t: nat)
    requires w.current < |w.table| && t < |w.table|
    ensures var w' := Block(w, b);
            t < |w'.table| && w'.table[t].waiting == if t == w.current then b else w.table[t].waiting
  {
    hide Interrupt;
    InterruptKeepsWaiting(With(w, w.current, w.table[w.current].(blocker := b, waiting := b, state := Yielded)), t);
  }

  lemma KilledKeepWaiting(w: World, pid: nat, t: nat)
    requires t < |w.table|
    ensures |KillAll(w.table, pid)| == |w.table| && KillAll(w.table, pid)[t].waiting == w.table[t].waiting
  {
  }

  /** Only its own return ends a thread's wait. */
  lemma NextKeepsWaiting(w: World, a: Action, idle: nat, t: nat)
    requires Inv(w, idle) && Enabled(w, a, idle) && t < |w.table| && w.table[t].waiting != NoBlocker
    requires !(a.Return? && w.current == t)
    ensures var w' := Next(w, a); t < |w'.table| && w'.table[t].waiting == w.table[t].waiting
  {
    hide Interrupt, KillAll, Block, ReadKeys, TakePacket, FindPipe, FindName;
    var c := w.table[w.current];
    match a
    case Timer => InterruptKeepsWaiting(w.(clock := w.clock + 1), t);
    case Kill => InterruptKeepsWaiting(With(w, w.current, c.(state := Dead)), t);
    case Exit(pid) =>
      KilledKeepWaiting(w, pid, t);
      InterruptKeepsWaiting(w.(table := KillAll(w.table, pid)), t);
    case Sleep(ms) => BlockKeepsWaiting(w, SleepUntil(w.clock + ms), t);
    case WaitProcess(pid) => BlockKeepsWaiting(w, ProcessWait(pid), t);
    case ReadLine => BlockKeepsWaiting(w, KeyWait('\n'), t);
    case Join(x) => BlockKeepsWaiting(w, ThreadJoin(x), t);
    case Receive(id) => BlockKeepsWaiting(w, PipeWait(c.pid, FindPipe(w.pipes, id, 0)), t);
    case _ =>
  }

  /** A thread waits for what its call blocked on until it returns. */
  lemma {:induction false} StillWaiting(ws: seq<World>, acts: seq<Action>, idle: nat, t: nat, i: nat, k: nat, b: Blocker)
    requires InCall(ws, acts, idle, t, i, k) && t < |ws[i].table| && ws[i + 1] == Block(ws[i], b) && b != NoBlocker
    ensures t < |ws[k].table| && ws[k].table[t].waiting == b
    decreases k
  {
    hide Inv, Enabled, Next, Block;
    if k == i + 1 {
      BlockKeepsWaiting(ws[i], b, t);
    } else {
      StillWaiting(ws, acts, idle, t, i, k - 1, b);
      InvAlways(ws, acts, idle, k - 1);
      assert StepOf(ws[k - 1], acts[k - 1], ws[k - 1 + 1], idle);
      NextKeepsWaiting(ws[k - 1], acts[k - 1], idle, t);
    }
  }

  /** While it is off the processor, a live thread that waits can run exactly when its blocker lets it; and it
      returns only then. */
  lemma RunsWhen(ws: seq<World>, acts: seq<Action>, idle: nat, t: nat, i: nat, k: nat, b: Blocker)
    requires InCall(ws, acts, idle, t, i, k) && t < |ws[i].table| && ws[i + 1] == Block(ws[i], b) && b != NoBlocker
    ensures t < |ws[k].table|
    ensures ws[k].table[t].state != Dead && ws[k].current != t ==> (CanRun(ws[k], t) <==> !IsBlocked(ws[k], b))
    ensures k < |acts| && acts[k].Return? && ws[k].current == t ==> !IsBlocked(ws[k], b)
  {
    hide Block, IsBlocked, Next, Enabled;
    StillWaiting(ws, acts, idle, t, i, k, b);
    InvAlways(ws, acts, idle, k);
    if ws[k].current != t {
      assert BlockerSet(ws[k].table[t]);
    }
    if k < |acts| && acts[k].Return? && ws[k].current == t {
      BlockReturnsUnblocked(ws, acts, idle, k);
    }
  }

  /** What a call at step i does. */
  lemma CallMade(ws: seq<World>, acts: seq<Action>, idle: nat, t: nat, i: nat, k: nat)
    requires InCall(ws, acts, idle, t, i, k)
    ensures i < |acts| && t < |ws[i].table| && ws[i + 1] == Next(ws[i], acts[i]) && Inv(ws[i], idle)
  {
    hide Inv, Next, Enabled;
    InvAlways(ws, acts, idle, i);
    assert StepOf(ws[i], acts[i], ws[i + 1], idle);
  }

  /** A live thread off the processor can run, or a thread returns from its call at this step. */
  ghost predicate Woken(ws: seq<World>, acts: seq<Action>, t: nat, k: nat)
    requires k < |ws|
  {
    if ws[k].current == t then k < |acts| && acts[k].Return?
    else CanRun(ws[k], t)
  }

  ghost predicate Alive(w: World, t: nat)
  {
    t < |w.table| && w.table[t].state != Dead
  }

  /** A thread that sleeps for ms from clock c returns at c + ms or later; off the processor it can run exactly
      from then on. */
  lemma SleepEnds(ws: seq<World>, acts: seq<Action>, idle: nat, t: nat, i: nat, k: nat, ms: nat)
    requires InCall(ws, acts, idle, t, i, k) && i < |acts| && acts[i] == Sleep(ms)
    ensures Woken(ws, acts, t, k) ==> ws[k].clock >= ws[i].clock + ms
    ensures Alive(ws[k], t) && ws[k].current != t && ws[k].clock >= ws[i].clock + ms ==> CanRun(ws[k], t)
  {
    hide Block, CanRun;
    CallMade(ws, acts, idle, t, i, k);
    RunsWhen(ws, acts, idle, t, i, k, SleepUntil(ws[i].clock + ms));
    RunnersLive(ws[k], t);
  }

  lemma RunnersLive(w: World, t: nat)
    ensures CanRun(w, t) ==> Alive(w, t)
  {
  }

  /** A thread that waits for a process returns when all its threads are dead, and can run exactly then. */
  lemma WaitEnds(ws: seq<World>, acts: seq<Action>, idle: nat, t: nat, i: nat, k: nat, pid: nat)
    requires InCall(ws, acts, idle, t, i, k) && i < |acts| && acts[i] == WaitProcess(pid)
    ensures Woken(ws, acts, t, k) ==>
              forall x :: 0 <= x < |ws[k].table| && ws[k].table[x].pid == pid ==> ws[k].table[x].state == Dead
    ensures Alive(ws[k], t) && ws[k].current != t
            && (forall x :: 0 <= x < |ws[k].table| && ws[k].table[x].pid == pid ==> ws[k].table[x].state == Dead)
            ==> CanRun(ws[k], t)
  {
    hide Block, CanRun;
    CallMade(ws, acts, idle, t, i, k);
    RunsWhen(ws, acts, idle, t, i, k, ProcessWait(pid));
    RunnersLive(ws[k], t);
  }

  /** A thread that joins another returns when that one is dead, and can run exactly then. */
  lemma JoinEnds(ws: seq<World>, acts: seq<Action>, idle: nat, t: nat, i: nat, k: nat, other: nat)
    requires InCall(ws, acts, idle, t, i, k) && i < |acts| && acts[i] == Join(other)
    requires other in ws[i].list && other != t
    ensures other < |ws[k].table|
    ensures Woken(ws, acts, t, k) ==> ws[k].table[other].state == Dead
    ensures Alive(ws[k], t) && ws[k].current != t && ws[k].table[other].state == Dead ==> CanRun(ws[k], t)
  {
    hide Block, CanRun;
    CallMade(ws, acts, idle, t, i, k);
    RunsWhen(ws, acts, idle, t, i, k, ThreadJoin(other));
    RunnersLive(ws[k], t);
    TableGrows(ws, acts, idle, i, k);
  }

  /** A thread that reads a line returns when there is a newline, and can run exactly then. */
  lemma ReadLineEnds(ws: seq<World>, acts: seq<Action>, idle: nat, t: nat, i: nat, k: nat)
    requires InCall(ws, acts, idle, t, i, k) && i < |acts| && acts[i] == ReadLine
    ensures Woken(ws, acts, t, k) ==> '\n' in ws[k].keys
    ensures Alive(ws[k], t) && ws[k].current != t && '\n' in ws[k].keys ==> CanRun(ws[k], t)
  {
    hide Block, CanRun;
    CallMade(ws, acts, idle, t, i, k);
    RunsWhen(ws, acts, idle, t, i, k, KeyWait('\n'));
    RunnersLive(ws[k], t);
  }

  /** A receiver need not wait. */
  ghost predicate Receivable(pipe: Pipe, pid: nat)
  {
    pipe.broken || exists j :: 0 <= j < |pipe.packets| && pipe.packets[j].dst == pid
  }

  /** A thread that receives from a pipe returns when the pipe is broken or holds a packet for its process, and
      can run exactly then. */
  lemma ReceiveEnds(ws: seq<World>, acts: seq<Action>, idle: nat, t: nat, i: nat, k: nat, id: nat, p: nat)
    requires InCall(ws, acts, idle, t, i, k) && i < |acts| && acts[i] == Receive(id)
    requires t < |ws[i].table| && p == FindPipe(ws[i].pipes, id, 0) < |ws[i].pipes|
    ensures p < |ws[k].pipes|
    ensures Woken(ws, acts, t, k) ==> Receivable(ws[k].pipes[p], ws[i].table[t].pid)
    ensures Alive(ws[k], t) && ws[k].current != t && Receivable(ws[k].pipes[p], ws[i].table[t].pid) ==> CanRun(ws[k], t)
  {
    hide Block, CanRun;
    CallMade(ws, acts, idle, t, i, k);
    RunsWhen(ws, acts, idle, t, i, k, PipeWait(ws[i].table[t].pid, p));
    RunnersLive(ws[k], t);
    TableGrows(ws, acts, idle, i, k);
  }

  // ---------- the end of threads ----------

  lemma InterruptDeadIff(w: World, t: nat)
    requires w.current < |w.table| && t < |w.table|
    ensures var w' := Interrupt(w); t < |w'.table| && (w'.table[t].state == Dead <==> w.table[t].state == Dead)
  {
    hide Without, Scan, IsBlocked;
    var r := Retire(w);
    if |r.list| > 0 && Scan(r, r.ctr, |r.list|).Chosen? {
      ChosenCanRun(r, r.ctr, |r.list|);
    }
  }

  /** Killing ends the current thread and no other; exiting ends all threads of the process and no other. */
  lemma WhoDies(w: World, t: nat, pid: nat)
    requires w.current < |w.table| && t < |w.table|
    ensures var w' := Next(w, Kill);
            && t < |w'.table|
            && (w'.table[t].state == Dead <==> w.table[t].state == Dead || t == w.current)
    ensures var w' := Next(w, Exit(pid));
            && t < |w'.table|
            && (w'.table[t].state == Dead <==> w.table[t].state == Dead || w.table[t].pid == pid)
  {
    hide Interrupt;
    InterruptDeadIff(With(w, w.current, w.table[w.current].(state := Dead)), t);
    InterruptDeadIff(w.(table := KillAll(w.table, pid)), t);
  }

  /** A new thread is listed and can run, and belongs to its process. */
  lemma SpawnedRuns(w: World, pid: nat)
    requires w.current < |w.table|
    ensures var w' := Next(w, Spawn(pid)); var t := |w.table|;
            && |w'.table| == t + 1 && w'.table[..t] == w.table && w'.table[t].pid == pid
            && w'.list == w.list + [t] && CanRun(w', t)
  {
  }

  lemma InterruptKeepsSizes(w: World)
    requires w.current < |w.table|
    ensures var w' := Interrupt(w); |w'.table| == |w.table| && w'.pipes == w.pipes
  {
    hide Without, Scan, IsBlocked;
    var r := Retire(w);
    if |r.list| > 0 && Scan(r, r.ctr, |r.list|).Chosen? {
      ChosenCanRun(r, r.ctr, |r.list|);
    }
  }

  lemma NextGrows(w: World, a: Action, idle: nat)
    requires w.current < |w.table| && idle < |w.table|
    ensures var w' := Next(w, a); |w'.table| >= |w.table| && |w'.pipes| >= |w.pipes|
  {
    hide Interrupt, KillAll, ReadKeys, TakePacket, FindPipe, FindName;
    var c := w.table[w.current];
    match a
    case Timer => InterruptKeepsSizes(w.(clock := w.clock + 1));
    case Kill => InterruptKeepsSizes(With(w, w.current, c.(state := Dead)));
    case Exit(pid) => InterruptKeepsSizes(w.(table := KillAll(w.table, pid)));
    case Sleep(ms) => BlockKeepsSizes(w, SleepUntil(w.clock + ms));
    case WaitProcess(pid) => BlockKeepsSizes(w, ProcessWait(pid));
    case ReadLine => BlockKeepsSizes(w, KeyWait('\n'));
    case Join(x) => BlockKeepsSizes(w, ThreadJoin(x));
    case Receive(id) => BlockKeepsSizes(w, PipeWait(c.pid, FindPipe(w.pipes, id, 0)));
    case _ =>
  }

  lemma BlockKeepsSizes(w: World, b: Blocker)
    requires w.current < |w.table|
    ensures var w' := Block(w, b); |w'.table| == |w.table| && w'.pipes == w.pipes
  {
    hide Interrupt;
    InterruptKeepsSizes(With(w, w.current, w.table[w.current].(blocker := b, waiting := b, state := Yielded)));
  }

  /** Threads and pipes are never taken from their tables. */
  lemma {:induction false} TableGrows(ws: seq<World>, acts: seq<Action>, idle: nat, i: nat, k: nat)
    requires IsRun(ws, acts, idle) && i <= k < |ws|
    ensures |ws[i].table| <= |ws[k].table| && |ws[i].pipes| <= |ws[k].pipes|
    decreases k
  {
    hide Inv, Next, Enabled;
    if i < k {
      TableGrows(ws, acts, idle, i, k - 1);
      assert StepOf(ws[k - 1], acts[k - 1], ws[k - 1 + 1], idle);
      NextGrows(ws[k - 1], acts[k - 1], idle);
    }
  }
}
