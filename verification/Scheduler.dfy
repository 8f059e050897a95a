/**
 The scheduler, threads and pipes as objects that are updated in place. Every method is proved to
 do to the abstract state `World()` what the state machine says.
 */
module Scheduler {
  import M = SchedulerModel
  import I = SchedulerInvariants

  class Thread {
    const id: nat
    const pid: nat
    var state: M.ThreadState
    var blocker: M.Blocker
    var slice: nat
    /** The Block call that has not returned yet. */
    ghost var waiting: M.Blocker

    ghost function Value(): M.Thread
      reads this
    {
      M.Thread(state, blocker, slice, pid, waiting)
    }

    constructor (id: nat, pid: nat)
      ensures this.id == id && this.pid == pid && Value() == M.Thread(M.Runnable, M.NoBlocker, 0, pid, M.NoBlocker)
    {
      this.id, this.pid := id, pid;
      state, blocker, slice := M.Runnable, M.NoBlocker, 0;
      waiting := M.NoBlocker;
    }
  }

  ghost function Values(ts: seq<Thread>): (vs: seq<M.Thread>)
    reads ts
    ensures |vs| == |ts| && forall i :: 0 <= i < |vs| ==> vs[i] == ts[i].Value()
  {
    if |ts| == 0 then [] else Values(ts[..|ts| - 1]) + [ts[|ts| - 1].Value()]
  }

  function Ids(ts: seq<Thread>): (ids: seq<nat>)
    ensures |ids| == |ts| && forall i :: 0 <= i < |ids| ==> ids[i] == ts[i].id
  {
    seq(|ts|, i requires 0 <= i < |ts| => ts[i].id)
  }

  /** The counter plays no part in who can run. */
  lemma CounterFree(w: M.World, c: nat, t: nat)
    ensures M.CanRun(w.(ctr := c), t) == M.CanRun(w, t)
  {
    if t < |w.table| {
      I.SameBlocked(w, w.(ctr := c), w.table[t].blocker);
    }
  }

  /** What pipe_recv reports: the packet cut to the size of the buffer, or that the pipe is broken. */
  predicate Delivered(r: M.Received, size: nat, result: int, src: nat, buffer: seq<nat>)
  {
    match r
    case Got(packet, _) =>
      && src == packet.src && result == |buffer|
      && |buffer| == (if |packet.data| > size then size else |packet.data|)
      && buffer == packet.data[..|buffer|]
    case Broken => result == -M.EPIPE
    case Wtf => false
  }

  class Scheduler {
    /** The run list, and all threads that were ever created, by number. */
    var threads: seq<Thread>
    var all: seq<Thread>
    var ctr: nat
    var current: Thread
    var clock: nat
    var keys: seq<char>
    var pipes: seq<M.Pipe>

    ghost predicate Known(t: Thread)
      reads this
    {
      t.id < |all| && all[t.id] == t
    }

    ghost predicate Valid()
      reads this
    {
      && (forall i :: 0 <= i < |all| ==> all[i].id == i)
      && Known(current)
      && forall i :: 0 <= i < |threads| ==> Known(threads[i])
    }

    ghost function World(): M.World
      requires Valid()
      reads this, all
    {
      M.World(Values(all), Ids(threads), ctr, current.id, clock, keys, pipes)
    }

    constructor (boot: Thread)
      requires boot.id == 0
      ensures Valid() && all == [boot] && World() == M.World([boot.Value()], [], 0, 0, 0, [], [])
    {
      threads, all, ctr, current, clock, keys, pipes := [], [boot], 0, boot, 0, [], [];
      new;
      assert Values([boot]) == [boot.Value()];
    }

    // ---------- blockers ----------

    method ProcessIsRunning(pid: nat) returns (r: bool)
      requires Valid()
      ensures r == M.IsRunning(World(), pid)
    {
      var i := 0;
      while i < |all|
        invariant i <= |all|
        invariant forall k :: 0 <= k < i ==> all[k].pid != pid || all[k].state == M.Dead
      {
        if all[i].pid == pid && all[i].state != M.Dead {
          assert World().table[i].pid == pid && World().table[i].state != M.Dead;
          return true;
        }
        i := i + 1;
      }
      r := false;
    }

    method PipeHasPacket(packets: seq<M.Packet>, me: nat) returns (r: bool)
      ensures r == M.HasPacket(packets, me)
    {
      var i := 0;
      while i < |packets|
        invariant i <= |packets| && forall k :: 0 <= k < i ==> packets[k].dst != me
      {
        if packets[i].dst == me {
          return true;
        }
        i := i + 1;
      }
      r := false;
    }

    method IsBlocked(b: M.Blocker) returns (r: bool)
      requires Valid()
      ensures r == M.IsBlocked(World(), b)
    {
      match b
      case NoBlocker => r := false;
      case SleepUntil(time) => r := clock < time;
      case ProcessWait(pid) => r := ProcessIsRunning(pid);
      case KeyWait(delim) => r := delim !in keys;
      case PipeWait(me, p) =>
        if p >= |pipes| || pipes[p].broken {
          return false;
        }
        var found := PipeHasPacket(pipes[p].packets, me);
        r := !found;
      case ThreadJoin(t) => r := t < |all| && all[t].state != M.Dead;
    }

    method CanRun(t: Thread) returns (r: bool)
      requires Valid() && Known(t)
      ensures r == M.CanRun(World(), t.id)
    {
      var blocked := IsBlocked(t.blocker);
      r := !blocked && t.state == M.Runnable;
    }

    // ---------- switching ----------

    /** Round robin: at most one round, because somebody can run. */
    method FindNextThread() returns (next: Thread)
      requires Valid() && |threads| > 0 && M.Scan(World(), ctr, |threads|).Chosen?
      modifies this`ctr
      ensures Valid() && Known(next)
      ensures M.Scan(old(World()), old(ctr), |threads|) == M.Chosen(next.id, ctr)
      ensures World() == old(World()).(ctr := ctr)
    {
      hide M.Scan, M.CanRun, M.IsBlocked;
      ghost var w, n := World(), |threads|;
      ghost var probes := 0;
      ScanNext(w, ctr, n);
      while true
        invariant Valid() && probes < n == |threads| && ctr == old(ctr) + probes && World() == w.(ctr := ctr)
        invariant M.Scan(w, old(ctr), n) == M.Scan(w, ctr, n - probes) && M.Scan(w, ctr, n - probes).Chosen?
        decreases n - probes
      {
        var nextIdx := ctr % |threads|;
        ScanNext(w, ctr, n - probes);
        CounterFree(w, ctr + 1, w.list[nextIdx]);
        ctr := ctr + 1;
        next := threads[nextIdx];
        var ok := CanRun(next);
        if ok {
          return;
        }
        ScanNext(w, ctr, n - probes - 1);
        probes := probes + 1;
      }
    }

    lemma ScanNext(w: M.World, c: nat, n: nat)
      requires |w.list| > 0 && M.Scan(w, c, n).Chosen?
      ensures n > 0
      ensures var t := w.list[c % |w.list|];
              M.Scan(w, c, n) == if M.CanRun(w, t) then M.Chosen(t, c + 1) else M.Scan(w, c + 1, n - 1)
    {
    }

    /** Only thread t has changed. */
    lemma OneChanged(ts: seq<Thread>, t: Thread, before: seq<M.Thread>)
      requires t.id < |ts| == |before| && ts[t.id] == t
      requires forall i :: 0 <= i < |ts| && i != t.id ==> ts[i].Value() == before[i]
      ensures Values(ts) == before[t.id := t.Value()]
    {
    }

    method ContextSwitch(oldThread: Thread, newThread: Thread)
      requires Valid() && oldThread == current && Known(newThread)
      modifies this`current, newThread
      ensures Valid() && World() == M.SwitchTo(old(World()), newThread.id)
    {
      if newThread == oldThread || newThread.id == oldThread.id {
        return;
      }
      ghost var before := Values(all);
      current := newThread;
      newThread.state := M.Running;
      newThread.slice := clock;
      newThread.blocker := M.NoBlocker;
      OneChanged(all, newThread, before);
    }

    method PreemptCurrent()
      requires Valid() && |threads| > 0 && M.Scan(World(), ctr, |threads|).Chosen?
      modifies this`ctr, this`current, all
      ensures Valid() && all == old(all) && World() == M.Preempt(old(World()))
    {
      hide M.Scan, M.SwitchTo;
      var oldThread := current;
      var newThread := FindNextThread();
      ContextSwitch(oldThread, newThread);
    }

    lemma {:induction false} RemoveFrom(ids: seq<nat>, i: nat)
      requires i < |ids| && forall k :: 0 <= k < i ==> ids[k] != ids[i]
      ensures M.Without(ids, ids[i]) == ids[..i] + ids[i + 1..]
      decreases i
    {
      if i > 0 {
        var tail := ids[1..];
        assert tail[i - 1] == ids[i];
        forall k | 0 <= k < i - 1
          ensures tail[k] != tail[i - 1]
        {
          assert tail[k] == ids[k + 1];
        }
        RemoveFrom(tail, i - 1);
        assert ids[..i] == [ids[0]] + tail[..i - 1];
        assert tail[i - 1 + 1..] == ids[i + 1..];
      }
    }

    lemma {:induction false} NothingToRemove(ids: seq<nat>, t: nat)
      requires t !in ids
      ensures M.Without(ids, t) == ids
    {
      if |ids| > 0 {
        NothingToRemove(ids[1..], t);
        assert ids == [ids[0]] + ids[1..];
      }
    }

    /** Takes the current thread out of the run list. */
    method RemoveCurrent()
      requires Valid()
      modifies this`threads
      ensures Valid() && World() == old(World()).(list := M.Without(old(World()).list, current.id))
    {
      ghost var ids := Ids(threads);
      var i := 0;
      while i < |threads|
        invariant i <= |threads| && threads == old(threads)
        invariant forall k :: 0 <= k < i ==> threads[k].id != current.id
      {
        if threads[i].id == current.id {
          RemoveFrom(ids, i);
          threads := threads[..i] + threads[i + 1..];
          assert Ids(threads) == ids[..i] + ids[i + 1..];
          return;
        }
        i := i + 1;
      }
      NothingToRemove(ids, current.id);
    }

    /** The current thread becomes runnable, or leaves the list. */
    method RetireCurrent()
      requires Valid()
      modifies this`threads, current
      ensures Valid() && all == old(all) && World() == M.Retire(old(World()))
    {
      if current.state != M.Dead {
        ghost var before := Values(all);
        current.state := M.Runnable;
        OneChanged(all, current, before);
      } else {
        RemoveCurrent();
      }
    }

    method HandleInterrupt(ghost idle: nat)
      requires Valid() && I.Ready(World(), idle)
      modifies this`threads, this`ctr, this`current, all
      ensures Valid() && all == old(all) && World() == M.Interrupt(old(World()))
    {
      hide I.Ready, M.Preempt, M.Retire, M.Scan;
      ghost var w := World();
      if current.state != M.Running || clock - current.slice > 25 {
        SomeChoice(w, idle);
        RetireCurrent();
        PreemptCurrent();
      }
    }

    lemma SomeChoice(w: M.World, idle: nat)
      requires I.Ready(w, idle)
      ensures w.current < |w.table|
      ensures var r := M.Retire(w); |r.list| > 0 && M.Scan(r, r.ctr, |r.list|).Chosen?
    {
      I.RetireKeeps(w, idle);
      var r := M.Retire(w);
      I.IdleRuns(r, idle);
      I.SomebodyRuns(r, idle);
    }

    // ---------- threads ----------

    /** Stores the blocker and yields. When the call returns to its thread, the blocker does not block
        (`BlockReturnsUnblocked`). */
    method Block(b: M.Blocker, ghost idle: nat)
      requires Valid() && I.Inv(World(), idle) && current.id != idle && current.waiting == M.NoBlocker
      requires b.PipeWait? ==> b.pipe < |pipes| && b.me == current.pid
      modifies this`threads, this`ctr, this`current, all
      ensures Valid() && all == old(all) && World() == M.Block(old(World()), b) && I.Inv(World(), idle)
    {
      hide M.Interrupt, I.Inv, I.Ready;
      ghost var w := World();
      ghost var before := Values(all);
      I.BlockKeeps(w, b, idle);
      I.BlockReady(w, b, idle);
      current.blocker := b;
      current.waiting := b;
      current.state := M.Yielded;
      OneChanged(all, current, before);
      HandleInterrupt(idle);
    }

    /** Thread::Kill for the current thread. */
    method Kill(ghost idle: nat)
      requires Valid() && I.Inv(World(), idle) && current.id != idle && current.waiting == M.NoBlocker
      modifies this`threads, this`ctr, this`current, all
      ensures Valid() && all == old(all) && World() == M.Next(old(World()), M.Kill) && I.Inv(World(), idle)
    {
      hide M.Interrupt, M.Next, I.Inv, I.Ready;
      ghost var w := World();
      ghost var before := Values(all);
      I.KillKeeps(w, idle);
      I.KillReady(w, idle);
      KillStep(w);
      current.state := M.Dead;
      OneChanged(all, current, before);
      HandleInterrupt(idle);
    }

    lemma KillStep(w: M.World)
      requires w.current < |w.table|
      ensures M.Next(w, M.Kill) == M.Interrupt(M.With(w, w.current, w.table[w.current].(state := M.Dead)))
    {
    }

    /** A tick of the clock, and what the scheduler makes of it. */
    method TimerTick(ghost idle: nat)
      requires Valid() && I.Inv(World(), idle) && current.waiting == M.NoBlocker
      modifies this`clock, this`threads, this`ctr, this`current, all
      ensures Valid() && all == old(all) && World() == M.Next(old(World()), M.Timer) && I.Inv(World(), idle)
    {
      hide M.Interrupt, I.Inv, I.Ready;
      I.TimerKeeps(World(), idle);
      I.TimerReady(World(), idle);
      clock := clock + 1;
      HandleInterrupt(idle);
    }

    method Spawn(pid: nat) returns (t: Thread)
      requires Valid()
      modifies this`all, this`threads
      ensures Valid() && fresh(t) && all == old(all) + [t] && World() == M.Next(old(World()), M.Spawn(pid))
    {
      t := new Thread(|all|, pid);
      all := all + [t];
      threads := threads + [t];
      assert Values(all) == old(Values(all)) + [t.Value()];
      assert Ids(threads) == old(Ids(threads)) + [t.id];
    }

    // ---------- pipes ----------

    method FindPipe(pipeId: nat) returns (p: nat)
      ensures p == M.FindPipe(pipes, pipeId, 0)
    {
      p := 0;
      while p < |pipes|
        invariant p <= |pipes| && M.FindPipe(pipes, pipeId, 0) == M.FindPipe(pipes, pipeId, p)
      {
        if pipes[p].pipeId == pipeId {
          return;
        }
        p := p + 1;
      }
    }

    /** Finds the pipe of this name, or makes one with the next number. */
    method FindOrCreatePipe(name: string) returns (pipeId: nat)
      requires Valid()
      modifies this`pipes
      ensures Valid() && World() == M.OpenPipe(old(World()), name)
      ensures var p := M.FindName(pipes, name, 0); p < |pipes| && pipeId == pipes[p].pipeId
    {
      var i := 0;
      while i < |pipes|
        invariant i <= |pipes| && M.FindName(pipes, name, 0) == M.FindName(pipes, name, i)
      {
        if pipes[i].name == name {
          return pipes[i].pipeId;
        }
        i := i + 1;
      }
      pipeId := |pipes| + 1;
      pipes := pipes + [M.Pipe(name, pipeId, current.pid, false, [])];
      assert pipes[|pipes| - 1].name == name;
      assert forall k :: 0 <= k < |pipes| - 1 ==> pipes[k].name != name;
    }

    method PipeClose(pipeId: nat) returns (result: int)
      requires Valid()
      modifies this`pipes
      ensures Valid() && World() == M.ClosePipe(old(World()), pipeId)
      ensures var p := M.FindPipe(old(pipes), pipeId, 0);
              result == if p == |old(pipes)| then -M.ENOENT
                        else if old(pipes)[p].owner == current.pid then 0 else -M.EPERM
    {
      var p := FindPipe(pipeId);
      if p == |pipes| {
        return -M.ENOENT;
      }
      if pipes[p].owner == current.pid {
        pipes := pipes[p := pipes[p].(broken := true)];
        return 0;
      }
      return -M.EPERM;
    }

    method PipeSend(pipeId: nat, dst: nat, data: seq<nat>) returns (result: int)
      requires Valid()
      modifies this`pipes
      ensures Valid() && World() == M.SendTo(old(World()), pipeId, dst, data)
      ensures result == if |data| > 16384 then -M.EINVAL
                        else if M.FindPipe(old(pipes), pipeId, 0) == |old(pipes)| then -M.ENOENT else 0
    {
      if |data| > 16384 {
        return -M.EINVAL;
      }
      var p := FindPipe(pipeId);
      if p == |pipes| {
        return -M.ENOENT;
      }
      var packet := M.Packet(current.pid, if dst == 0 then pipes[p].owner else dst, data);
      pipes := pipes[p := pipes[p].(packets := pipes[p].packets + [packet])];
      return 0;
    }

    /** pipe_recv up to and including Block; a pipe that does not exist ends the call at once. */
    method PipeReceive(pipeId: nat, ghost idle: nat) returns (result: int)
      requires Valid() && I.Inv(World(), idle) && current.id != idle && current.waiting == M.NoBlocker
      modifies this`threads, this`ctr, this`current, all
      ensures Valid() && all == old(all) && World() == M.Next(old(World()), M.Receive(pipeId)) && I.Inv(World(), idle)
      ensures result == if M.FindPipe(old(pipes), pipeId, 0) == |old(pipes)| then -M.ENOENT else 0
    {
      hide M.Block, I.Inv;
      var p := FindPipe(pipeId);
      if p == |pipes| {
        return -M.ENOENT;
      }
      Block(M.PipeWait(current.pid, p), idle);
      return 0;
    }

    /** The part of pipe_recv behind Block: never -EWTF, and the first packet for the process. */
    method FinishReceive(me: nat, p: nat, size: nat, ghost idle: nat) returns (result: int, src: nat, buffer: seq<nat>)
      requires Valid() && I.Inv(World(), idle) && current.waiting == M.PipeWait(me, p)
      modifies this`pipes, current
      ensures Valid() && World() == M.Finish(old(World()), size) && I.Inv(World(), idle)
      ensures p < |old(pipes)| && Delivered(M.TakePacket(old(pipes)[p], me), size, result, src, buffer)
    {
      hide I.Inv, M.TakePacket, M.Finish, Delivered;
      ghost var w := World();
      PacketThere(w, me, p, idle);
      FinishStep(w, me, p, size);
      I.ReturnKeeps(w, size, idle);
      result, src, buffer := TakeFromPipe(me, p, size);
      Returned();
    }

    /** The thread is behind its Block call now. */
    ghost method Returned()
      requires Valid()
      modifies current
      ensures Valid()
      ensures World() == M.With(old(World()), current.id, old(current.Value()).(waiting := M.NoBlocker))
    {
      var before := Values(all);
      current.waiting := M.NoBlocker;
      OneChanged(all, current, before);
    }

    lemma FinishStep(w: M.World, me: nat, p: nat, size: nat)
      requires w.current < |w.table| && p < |w.pipes| && w.table[w.current].waiting == M.PipeWait(me, p)
      ensures M.Finish(w, size).table == w.table[w.current := w.table[w.current].(waiting := M.NoBlocker)]
      ensures M.Finish(w, size) == w.(table := M.Finish(w, size).table, pipes := M.Finish(w, size).pipes)
      ensures M.Finish(w, size).pipes
           == match M.TakePacket(w.pipes[p], me)
              case Got(_, rest) => w.pipes[p := w.pipes[p].(packets := rest)]
              case _ => w.pipes
    {
      hide M.TakePacket;
    }

    /** Takes the first packet for a process, unless the pipe is broken. */
    method TakeFromPipe(me: nat, p: nat, size: nat) returns (result: int, src: nat, buffer: seq<nat>)
      requires Valid() && p < |pipes| && (!pipes[p].broken ==> M.HasPacket(pipes[p].packets, me))
      modifies this`pipes
      ensures Valid() && World() == old(World()).(pipes := pipes)
      ensures pipes == match M.TakePacket(old(pipes)[p], me)
                       case Got(packet, rest) => old(pipes)[p := old(pipes)[p].(packets := rest)]
                       case _ => old(pipes)
      ensures Delivered(M.TakePacket(old(pipes)[p], me), size, result, src, buffer)
    {
      src, buffer := 0, [];
      if pipes[p].broken {
        result := -M.EPIPE;
        return;
      }
      var i := FirstPacket(pipes[p].packets, me);
      var packet := pipes[p].packets[i];
      pipes := pipes[p := pipes[p].(packets := M.RemoveAt(pipes[p].packets, i))];
      var n := if |packet.data| > size then size else |packet.data|;
      src, buffer, result := packet.src, packet.data[..n], n;
    }

    lemma PacketThere(w: M.World, me: nat, p: nat, idle: nat)
      requires I.Inv(w, idle) && w.table[w.current].waiting == M.PipeWait(me, p)
      ensures p < |w.pipes| && M.TakePacket(w.pipes[p], me) != M.Wtf
      ensures !w.pipes[p].broken ==> M.HasPacket(w.pipes[p].packets, me)
    {
      var packets := w.pipes[p].packets;
      if !w.pipes[p].broken {
        var k :| 0 <= k < |packets| && packets[k].dst == me;
        assert M.FirstFor(packets, me, 0) <= k;
      }
    }

    method FirstPacket(packets: seq<M.Packet>, me: nat) returns (i: nat)
      requires M.HasPacket(packets, me)
      ensures i < |packets| && i == M.FirstFor(packets, me, 0)
    {
      i := 0;
      while packets[i].dst != me
        invariant i < |packets| && M.FirstFor(packets, me, 0) == M.FirstFor(packets, me, i)
        invariant forall k :: 0 <= k < i ==> packets[k].dst != me
        decreases |packets| - i
      {
        i := i + 1;
      }
    }
  }
}
