/**
 The kernel's scheduling and blocking as a state machine: one processor, and system calls that run
 without interruption except where they give up the processor in Block. Threads are numbered in
 order of creation and are never reclaimed, so that a dead thread can still be looked at.
 */
module SchedulerModel {

  datatype ThreadState = Runnable | Running | Yielded | Dead

  /** What a thread waits for. */
  datatype Blocker =
    | NoBlocker
    | SleepUntil(time: nat)
    | ProcessWait(pid: nat)
    | KeyWait(delim: char)
    | PipeWait(me: nat, pipe: nat)
    | ThreadJoin(tid: nat)

  /** `waiting` is the thread's place in the program: the blocker of a Block call it has not yet
      returned from. `blocker` is the pointer that the scheduler looks at. */
  datatype Thread = Thread(state: ThreadState, blocker: Blocker, slice: nat, pid: nat, waiting: Blocker)

  datatype Packet = Packet(src: nat, dst: nat, data: seq<nat>)

  datatype Pipe = Pipe(name: string, pipeId: nat, owner: nat, broken: bool, packets: seq<Packet>)

  datatype World = World(table: seq<Thread>, list: seq<nat>, ctr: nat, current: nat, clock: nat, keys: seq<char>,
                         pipes: seq<Pipe>)

  // ---------- blockers ----------

  /** Some thread of the process is not dead. */
  predicate IsRunning(w: World, pid: nat)
  {
    exists t :: 0 <= t < |w.table| && w.table[t].pid == pid && w.table[t].state != Dead
  }

  predicate HasPacket(packets: seq<Packet>, me: nat)
  {
    exists i :: 0 <= i < |packets| && packets[i].dst == me
  }

  predicate IsBlocked(w: World, b: Blocker)
  {
    match b
    case NoBlocker => false
    case SleepUntil(time) => w.clock < time
    case ProcessWait(pid) => IsRunning(w, pid)
    case KeyWait(delim) => delim !in w.keys
    case PipeWait(me, p) => p < |w.pipes| && !w.pipes[p].broken && !HasPacket(w.pipes[p].packets, me)
    case ThreadJoin(t) => t < |w.table| && w.table[t].state != Dead
  }

  predicate CanRun(w: World, t: nat)
  {
    t < |w.table| && !IsBlocked(w, w.table[t].blocker) && w.table[t].state == Runnable
  }

  // ---------- choosing the next thread ----------

  datatype Choice = Chosen(tid: nat, ctr: nat) | NobodyRuns

  /** Up to n probes, from the counter on. */
  function Scan(w: World, ctr: nat, n: nat): (c: Choice)
    requires |w.list| > 0
    decreases n
  {
    if n == 0 then NobodyRuns
    else
      var t := w.list[ctr % |w.list|];
      if CanRun(w, t) then Chosen(t, ctr + 1) else Scan(w, ctr + 1, n - 1)
  }

  function With(w: World, t: nat, th: Thread): World
    requires t < |w.table|
  {
    w.(table := w.table[t := th])
  }

  /** ContextSwitch: nothing at all if the thread goes on. */
  function SwitchTo(w: World, t: nat): World
    requires t < |w.table|
  {
    if t == w.current then w
    else With(w, t, w.table[t].(state := Running, slice := w.clock, blocker := NoBlocker)).(current := t)
  }

  /** PreemptCurrent; there is always a thread to choose (`SomebodyRuns`). */
  function Preempt(w: World): World
  {
    if |w.list| == 0 then w
    else match Scan(w, w.ctr, |w.list|)
         case NobodyRuns => w
         case Chosen(t, c) => if t < |w.table| then SwitchTo(w.(ctr := c), t) else w
  }

  function Without(list: seq<nat>, t: nat): (r: seq<nat>)
  {
    if |list| == 0 then [] else if list[0] == t then list[1..] else [list[0]] + Without(list[1..], t)
  }

  /** What precedes the choice: the current thread becomes runnable, or leaves the list if it is dead. */
  function Retire(w: World): World
    requires w.current < |w.table|
  {
    var c := w.table[w.current];
    if c.state != Dead then With(w, w.current, c.(state := Runnable)) else w.(list := Without(w.list, w.current))
  }

  /** HandleInterrupt: a running thread is left alone for 25 ticks. */
  function Interrupt(w: World): World
    requires w.current < |w.table|
  {
    var c := w.table[w.current];
    if c.state != Running || w.clock - c.slice > 25 then Preempt(Retire(w)) else w
  }

  // ---------- what a thread, or the hardware, can do ----------

  datatype Action =
    | Timer
    | Idle
    | KeyPress(c: char)
    | Spawn(pid: nat)
    | Kill
    | Exit(pid: nat)
    | Sleep(ms: nat)
    | WaitProcess(pid: nat)
    | ReadLine
    | Join(tid: nat)
    | Receive(pipeId: nat)
    | Send(pipeId: nat, dst: nat, data: seq<nat>)
    | Open(name: string)
    | Close(pipeId: nat)
    | Return(maxSize: nat)

  function CurrentThread(w: World): Thread
    requires w.current < |w.table|
  {
    w.table[w.current]
  }

  /** The blocker is stored, then the thread yields. */
  function Block(w: World, b: Blocker): World
    requires w.current < |w.table|
  {
    Interrupt(With(w, w.current, CurrentThread(w).(blocker := b, waiting := b, state := Yielded)))
  }

  function KillAll(table: seq<Thread>, pid: nat): (r: seq<Thread>)
    ensures |r| == |table|
    ensures forall t :: 0 <= t < |r| ==> r[t] == if table[t].pid == pid then table[t].(state := Dead) else table[t]
  {
    seq(|table|, t requires 0 <= t < |table| => if table[t].pid == pid then table[t].(state := Dead) else table[t])
  }

  function FindPipe(pipes: seq<Pipe>, id: nat, from: nat): (p: nat)
    requires from <= |pipes|
    ensures from <= p <= |pipes| && (p < |pipes| ==> pipes[p].pipeId == id)
    ensures forall i :: from <= i < p ==> pipes[i].pipeId != id
    decreases |pipes| - from
  {
    if from == |pipes| || pipes[from].pipeId == id then from else FindPipe(pipes, id, from + 1)
  }

  function FindName(pipes: seq<Pipe>, name: string, from: nat): (p: nat)
    requires from <= |pipes|
    ensures from <= p <= |pipes| && (p < |pipes| ==> pipes[p].name == name)
    ensures forall i :: from <= i < p ==> pipes[i].name != name
    decreases |pipes| - from
  {
    if from == |pipes| || pipes[from].name == name then from else FindName(pipes, name, from + 1)
  }

  /** The first packet for a process; the number of packets if there is none. */
  function FirstFor(packets: seq<Packet>, me: nat, from: nat): (i: nat)
    requires from <= |packets|
    ensures from <= i <= |packets| && (i < |packets| ==> packets[i].dst == me)
    ensures forall k :: from <= k < i ==> packets[k].dst != me
    decreases |packets| - from
  {
    if from == |packets| || packets[from].dst == me then from else FirstFor(packets, me, from + 1)
  }

  function RemoveAt<T>(s: seq<T>, i: nat): (r: seq<T>)
    requires i < |s|
    ensures |r| == |s| - 1
  {
    s[..i] + s[i + 1..]
  }

  const ENOENT: int := 14
  const EPERM: int := 19
  const EPIPE: int := 20
  const EINVAL: int := 24

  datatype Received = Got(packet: Packet, rest: seq<Packet>) | Broken | Wtf

  /** The part of pipe_recv behind Block. */
  function TakePacket(pipe: Pipe, me: nat): Received
  {
    if pipe.broken then Broken
    else
      var i := FirstFor(pipe.packets, me, 0);
      if i < |pipe.packets| then Got(pipe.packets[i], RemoveAt(pipe.packets, i)) else Wtf
  }

  /** Keyboard::ReadUntil: the characters before the delimiter go, at most maxSize, and one newline. */
  function ReadKeys(keys: seq<char>, delim: char, maxSize: nat): seq<char>
  {
    if delim !in keys then keys
    else
      var idx := IndexOf(keys, delim);
      var size := if idx > maxSize then maxSize else idx;
      var rest := keys[size..];
      if |rest| > 0 && rest[0] == '\n' then rest[1..] else rest
  }

  function IndexOf(keys: seq<char>, delim: char): (i: nat)
    requires delim in keys
    ensures i < |keys| && keys[i] == delim && forall k :: 0 <= k < i ==> keys[k] != delim
  {
    if keys[0] == delim then 0 else 1 + IndexOf(keys[1..], delim)
  }

  /** The rest of a system call after Block returned. */
  function Finish(w: World, maxSize: nat): World
    requires w.current < |w.table|
  {
    var c := CurrentThread(w);
    var w' := With(w, w.current, c.(waiting := NoBlocker));
    match c.waiting
    case KeyWait(delim) => w'.(keys := ReadKeys(w.keys, delim, maxSize))
    case PipeWait(me, p) =>
      if p >= |w.pipes| then w'
      else
        (match TakePacket(w.pipes[p], me)
         case Got(_, rest) => w'.(pipes := w.pipes[p := w.pipes[p].(packets := rest)])
         case _ => w')
    case _ => w'
  }

  /** When an action can happen. Inside a system call only its own continuation can. */
  predicate Enabled(w: World, a: Action, idle: nat)
    requires w.current < |w.table| && idle < |w.table|
  {
    var c := CurrentThread(w);
    match a
    case Return(_) => c.waiting != NoBlocker
    case Timer => c.waiting == NoBlocker
    case KeyPress(_) => c.waiting == NoBlocker
    case Idle => w.current == idle
    // The idle thread makes no system calls, and nobody kills its process.
    case Exit(pid) => c.waiting == NoBlocker && w.current != idle && pid != w.table[idle].pid
    case Spawn(pid) => c.waiting == NoBlocker && w.current != idle
    case _ => c.waiting == NoBlocker && w.current != idle
  }

  function SendTo(w: World, pipeId: nat, dst: nat, data: seq<nat>): World
    requires w.current < |w.table|
  {
    var p := FindPipe(w.pipes, pipeId, 0);
    if |data| > 16384 || p == |w.pipes| then w
    else
      var pipe := w.pipes[p];
      var packet := Packet(CurrentThread(w).pid, if dst == 0 then pipe.owner else dst, data);
      w.(pipes := w.pipes[p := pipe.(packets := pipe.packets + [packet])])
  }

  function OpenPipe(w: World, name: string): World
    requires w.current < |w.table|
  {
    if FindName(w.pipes, name, 0) < |w.pipes| then w
    else w.(pipes := w.pipes + [Pipe(name, |w.pipes| + 1, CurrentThread(w).pid, false, [])])
  }

  function ClosePipe(w: World, pipeId: nat): World
    requires w.current < |w.table|
  {
    var p := FindPipe(w.pipes, pipeId, 0);
    if p < |w.pipes| && w.pipes[p].owner == CurrentThread(w).pid then w.(pipes := w.pipes[p := w.pipes[p].(broken := true)])
    else w
  }

  function Next(w: World, a: Action): World
    requires w.current < |w.table|
  {
    var c := CurrentThread(w);
    match a
    case Timer => Interrupt(w.(clock := w.clock + 1))
    case Idle => With(w, w.current, c.(state := Yielded))
    case KeyPress(k) => w.(keys := w.keys + [k])
    case Spawn(pid) => w.(table := w.table + [Thread(Runnable, NoBlocker, 0, pid, NoBlocker)], list := w.list + [|w.table|])
    case Kill => Interrupt(With(w, w.current, c.(state := Dead)))
    case Exit(pid) =>
      var w' := w.(table := KillAll(w.table, pid));
      if c.pid == pid then Interrupt(w') else w'
    case Sleep(ms) => Block(w, SleepUntil(w.clock + ms))
    case WaitProcess(pid) => Block(w, ProcessWait(pid))
    case ReadLine => Block(w, KeyWait('\n'))
    case Join(t) => if t in w.list && t != w.current then Block(w, ThreadJoin(t)) else w
    case Receive(id) =>
      var p := FindPipe(w.pipes, id, 0);
      if p < |w.pipes| then Block(w, PipeWait(c.pid, p)) else w
    case Send(id, dst, data) => SendTo(w, id, dst, data)
    case Open(name) => OpenPipe(w, name)
    case Close(id) => ClosePipe(w, id)
    case Return(maxSize) => Finish(w, maxSize)
  }
}
