/**
 Packets over whole runs: none is lost, invented or delivered twice, and each process gets the
 packets addressed to it in the order in which they were sent.
 */
module PipeHistories {
  import opened SchedulerModel
  import opened SchedulerInvariants

  /** All packets ever accepted by each pipe, and all ever taken from it. */
  datatype History = History(sent: seq<seq<Packet>>, got: seq<seq<Packet>>)

  function Accepted(w: World, pipeId: nat, data: seq<nat>): bool
  {
    |data| <= 16384 && FindPipe(w.pipes, pipeId, 0) < |w.pipes|
  }

  /** The packet that pipe_send makes; destination 0 is the owner of the pipe. */
  function NewPacket(w: World, pipeId: nat, dst: nat, data: seq<nat>): Packet
    requires w.current < |w.table| && Accepted(w, pipeId, data)
  {
    Packet(CurrentThread(w).pid, if dst == 0 then w.pipes[FindPipe(w.pipes, pipeId, 0)].owner else dst, data)
  }

  function Append(hs: seq<seq<Packet>>, p: nat, packet: Packet): (r: seq<seq<Packet>>)
    requires p < |hs|
    ensures |r| == |hs|
  {
    hs[p := hs[p] + [packet]]
  }

  /** What a step adds to the history. */
  function Record(w: World, a: Action, h: History): History
    requires w.current < |w.table| && |h.sent| == |h.got| == |w.pipes|
  {
    match a
    case Send(id, dst, data) =>
      if Accepted(w, id, data) then h.(sent := Append(h.sent, FindPipe(w.pipes, id, 0), NewPacket(w, id, dst, data))) else h
    case Open(name) =>
      if FindName(w.pipes, name, 0) < |w.pipes| then h else History(h.sent + [[]], h.got + [[]])
    case Return(_) =>
      var b := CurrentThread(w).waiting;
      if b.PipeWait? && b.pipe < |w.pipes| && TakePacket(w.pipes[b.pipe], b.me).Got?
      then h.(got := Append(h.got, b.pipe, TakePacket(w.pipes[b.pipe], b.me).packet))
      else h
    case _ => h
  }

  /** The packets for one process, in order. */
  function For(s: seq<Packet>, d: nat): seq<Packet>
  {
    if |s| == 0 then []
    else For(s[..|s| - 1], d) + if s[|s| - 1].dst == d then [s[|s| - 1]] else []
  }

  lemma {:induction false} ForConcat(a: seq<Packet>, b: seq<Packet>, d: nat)
    ensures For(a + b, d) == For(a, d) + For(b, d)
  {
    if |b| == 0 {
      assert a + b == a;
    } else {
      ForConcat(a, b[..|b| - 1], d);
      assert (a + b)[..|a + b| - 1] == a + b[..|b| - 1];
    }
  }

  lemma ForOne(x: Packet, d: nat)
    ensures For([x], d) == if x.dst == d then [x] else []
  {
    assert [x][..0] == [];
  }

  lemma {:induction false} ForNone(s: seq<Packet>, d: nat)
    requires forall i :: 0 <= i < |s| ==> s[i].dst != d
    ensures For(s, d) == []
  {
    if |s| > 0 {
      ForNone(s[..|s| - 1], d);
    }
  }

  /** Taking the first packet for a process takes the head of its packets, and of no other's. */
  lemma TakeFirst(packets: seq<Packet>, me: nat, d: nat)
    requires FirstFor(packets, me, 0) < |packets|
    ensures var i := FirstFor(packets, me, 0);
            For(packets, d) == (if d == me then [packets[i]] else []) + For(RemoveAt(packets, i), d)
  {
    hide For;
    var i := FirstFor(packets, me, 0);
    var a, x, b := packets[..i], packets[i], packets[i + 1..];
    assert packets == a + ([x] + b);
    ForConcat(a, [x] + b, d);
    ForConcat([x], b, d);
    ForConcat(a, b, d);
    ForOne(x, d);
    if d == me {
      ForNone(a, d);
    }
  }

  /** For each process: the packets sent to it are those it got, followed by those still queued. */
  ghost predicate InOrder(sent: seq<Packet>, got: seq<Packet>, queued: seq<Packet>)
  {
    forall d: nat :: For(sent, d) == For(got, d) + For(queued, d)
  }

  ghost predicate Conserved(w: World, h: History)
  {
    && |h.sent| == |h.got| == |w.pipes|
    && forall p :: 0 <= p < |w.pipes| ==>
         InOrder(h.sent[p], h.got[p], w.pipes[p].packets)
         && |h.sent[p]| == |h.got[p]| + |w.pipes[p].packets|
  }

  lemma SentOne(sent: seq<Packet>, got: seq<Packet>, queued: seq<Packet>, x: Packet)
    requires InOrder(sent, got, queued)
    ensures InOrder(sent + [x], got, queued + [x])
  {
    hide For;
    forall d: nat
      ensures For(sent + [x], d) == For(got, d) + For(queued + [x], d)
    {
      ForConcat(sent, [x], d);
      ForConcat(queued, [x], d);
      assert For(sent, d) == For(got, d) + For(queued, d);
    }
  }

  lemma TookOne(sent: seq<Packet>, got: seq<Packet>, queued: seq<Packet>, me: nat)
    requires InOrder(sent, got, queued) && FirstFor(queued, me, 0) < |queued|
    ensures var i := FirstFor(queued, me, 0); InOrder(sent, got + [queued[i]], RemoveAt(queued, i))
  {
    hide For;
    var i := FirstFor(queued, me, 0);
    var x, rest := queued[i], RemoveAt(queued, i);
    forall d: nat
      ensures For(sent, d) == For(got + [x], d) + For(rest, d)
    {
      ForConcat(got, [x], d);
      ForOne(x, d);
      TakeFirst(queued, me, d);
      assert For(sent, d) == For(got, d) + For(queued, d);
    }
  }

  // ---------- every step ----------

  lemma InterruptKeepsPipes(w: World)
    requires w.current < |w.table|
    ensures Interrupt(w).pipes == w.pipes
  {
    hide Scan, Without;
  }

  lemma SendConserves(w: World, id: nat, dst: nat, data: seq<nat>, h: History)
    requires w.current < |w.table| && Conserved(w, h)
    ensures Conserved(Next(w, Send(id, dst, data)), Record(w, Send(id, dst, data), h))
  {
    hide InOrder, FindPipe;
    if Accepted(w, id, data) {
      var p := FindPipe(w.pipes, id, 0);
      SentOne(h.sent[p], h.got[p], w.pipes[p].packets, NewPacket(w, id, dst, data));
    }
  }

  lemma ReturnConserves(w: World, maxSize: nat, h: History)
    requires w.current < |w.table| && Conserved(w, h)
    ensures Conserved(Next(w, Return(maxSize)), Record(w, Return(maxSize), h))
  {
    hide InOrder, FirstFor, ReadKeys, RemoveAt;
    var b := CurrentThread(w).waiting;
    if b.PipeWait? && b.pipe < |w.pipes| && TakePacket(w.pipes[b.pipe], b.me).Got? {
      var p := b.pipe;
      TookOne(h.sent[p], h.got[p], w.pipes[p].packets, b.me);
    }
  }

  lemma OpenConserves(w: World, name: string, h: History)
    requires w.current < |w.table| && Conserved(w, h)
    ensures Conserved(Next(w, Open(name)), Record(w, Open(name), h))
  {
    hide FindName;
  }

  lemma CloseConserves(w: World, id: nat, h: History)
    requires w.current < |w.table| && Conserved(w, h)
    ensures Conserved(Next(w, Close(id)), Record(w, Close(id), h))
  {
    hide FindPipe, InOrder;
  }

  lemma SamePipes(w: World, w': World, h: History)
    requires Conserved(w, h) && w'.pipes == w.pipes
    ensures Conserved(w', h)
  {
  }

  lemma BlockKeepsPipes(w: World, b: Blocker)
    requires w.current < |w.table|
    ensures Block(w, b).pipes == w.pipes
  {
    hide Interrupt;
    InterruptKeepsPipes(With(w, w.current, CurrentThread(w).(blocker := b, waiting := b, state := Yielded)));
  }

  lemma NextConserves(w: World, a: Action, h: History)
    requires w.current < |w.table| && Conserved(w, h)
    ensures Conserved(Next(w, a), Record(w, a, h))
  {
    hide Conserved, Interrupt, Block, FindPipe, FindName, KillAll;
    Sizes(w, h);
    var c := CurrentThread(w);
    match a
    case Send(id, dst, data) => SendConserves(w, id, dst, data, h);
    case Return(maxSize) => ReturnConserves(w, maxSize, h);
    case Open(name) => OpenConserves(w, name, h);
    case Close(id) => CloseConserves(w, id, h);
    case _ =>
      OtherPipes(w, a);
      SamePipes(w, Next(w, a), h);
  }

  lemma Sizes(w: World, h: History)
    requires Conserved(w, h)
    ensures |h.sent| == |h.got| == |w.pipes|
  {
  }

  lemma OtherPipes(w: World, a: Action)
    requires w.current < |w.table| && !a.Send? && !a.Return? && !a.Open? && !a.Close?
    ensures Next(w, a).pipes == w.pipes
  {
    hide Interrupt, Block, FindPipe, FindName, KillAll;
    var c := CurrentThread(w);
    match a
    case Timer => InterruptKeepsPipes(w.(clock := w.clock + 1));
    case Kill => InterruptKeepsPipes(With(w, w.current, c.(state := Dead)));
    case Exit(pid) =>
      KillAllSize(w.table, pid);
      InterruptKeepsPipes(w.(table := KillAll(w.table, pid)));
    case Sleep(ms) => BlockKeepsPipes(w, SleepUntil(w.clock + ms));
    case WaitProcess(pid) => BlockKeepsPipes(w, ProcessWait(pid));
    case ReadLine => BlockKeepsPipes(w, KeyWait('\n'));
    case Join(x) => BlockKeepsPipes(w, ThreadJoin(x));
    case Receive(id) => BlockKeepsPipes(w, PipeWait(c.pid, FindPipe(w.pipes, id, 0)));
    case _ =>
  }

  lemma KillAllSize(table: seq<Thread>, pid: nat)
    ensures |KillAll(table, pid)| == |table|
  {
  }

  // ---------- runs ----------

  /** The history of a run that starts without pipes. */
  function HistoryOf(ws: seq<World>, acts: seq<Action>, i: nat): (h: History)
    requires i <= |acts| && |ws| == |acts| + 1
  {
    if i == 0 then History([], [])
    else
      var h := HistoryOf(ws, acts, i - 1);
      if ws[i - 1].current < |ws[i - 1].table| && |h.sent| == |h.got| == |ws[i - 1].pipes|
      then Record(ws[i - 1], acts[i - 1], h) else h
  }

  /** In every reachable state: per pipe, packets sent are packets got plus packets queued, and each
      process has got a prefix of what was sent to it. */
  lemma {:induction false} AlwaysConserved(ws: seq<World>, acts: seq<Action>, idle: nat, i: nat)
    requires IsRun(ws, acts, idle) && ws[0].pipes == [] && i <= |acts|
    ensures Conserved(ws[i], HistoryOf(ws, acts, i))
  {
    hide Inv, Enabled, Next, Record;
    if i > 0 {
      AlwaysConserved(ws, acts, idle, i - 1);
      assert StepOf(ws[i - 1], acts[i - 1], ws[i - 1 + 1], idle);
      NextConserves(ws[i - 1], acts[i - 1], HistoryOf(ws, acts, i - 1));
    }
  }

  /** First in, first out: what a process has got so far is the beginning of what was sent to it. */
  lemma DeliveredInOrder(ws: seq<World>, acts: seq<Action>, idle: nat, i: nat, p: nat, d: nat)
    requires IsRun(ws, acts, idle) && ws[0].pipes == [] && i <= |acts| && p < |ws[i].pipes|
    ensures var h := HistoryOf(ws, acts, i);
            && p < |h.sent| && p < |h.got| && |For(h.got[p], d)| <= |For(h.sent[p], d)|
            && For(h.got[p], d) == For(h.sent[p], d)[..|For(h.got[p], d)|]
  {
    hide For;
    AlwaysConserved(ws, acts, idle, i);
    var h := HistoryOf(ws, acts, i);
    assert InOrder(h.sent[p], h.got[p], ws[i].pipes[p].packets);
    assert For(h.sent[p], d) == For(h.got[p], d) + For(ws[i].pipes[p].packets, d);
  }

  // ---------- pipe numbers ----------

  /** Pipes are numbered from 1, and have different names. */
  ghost predicate PipesNumbered(pipes: seq<Pipe>)
  {
    && (forall i :: 0 <= i < |pipes| ==> pipes[i].pipeId == i + 1)
    && forall i, j :: 0 <= i < j < |pipes| ==> pipes[i].name != pipes[j].name
  }

  lemma NextNumbered(w: World, a: Action)
    requires w.current < |w.table| && PipesNumbered(w.pipes)
    ensures PipesNumbered(Next(w, a).pipes)
  {
    hide Interrupt, Block, FindPipe, FindName, KillAll, FirstFor, ReadKeys, TakePacket;
    if !a.Send? && !a.Return? && !a.Open? && !a.Close? {
      hide Next;
      OtherPipes(w, a);
    }
  }

  /** A pipe is found again under its number and under its name. */
  lemma OpenedIsFound(w: World, name: string)
    requires w.current < |w.table| && PipesNumbered(w.pipes)
    ensures var w' := Next(w, Open(name));
            var p := FindName(w'.pipes, name, 0);
            && p < |w'.pipes| && w'.pipes[p].name == name
            && FindPipe(w'.pipes, p + 1, 0) == p
            && Next(w', Open(name)) == w'
    ensures var n := |w.pipes|; var w' := Next(w, Open(name));
            if exists i :: 0 <= i < n && w.pipes[i].name == name then w' == w
            else |w'.pipes| == n + 1 && w'.pipes[..n] == w.pipes && w'.pipes[n].owner == CurrentThread(w).pid
                 && !w'.pipes[n].broken && w'.pipes[n].packets == []
  {
    NextNumbered(w, Open(name));
    var w' := Next(w, Open(name));
    if FindName(w.pipes, name, 0) == |w.pipes| {
      assert w'.pipes[|w.pipes|].name == name;
    }
  }

  /** A packet goes to the end of the pipe's queue, from the sender's process, to the pipe's owner if no other
      process is named; too long ones and unknown pipes change nothing. */
  lemma SentIsQueued(w: World, id: nat, dst: nat, data: seq<nat>, p: nat)
    requires w.current < |w.table| && PipesNumbered(w.pipes) && p < |w.pipes|
    ensures var w' := Next(w, Send(id, dst, data));
            && |w'.pipes| == |w.pipes|
            && w'.pipes[p] == (if id == p + 1 && |data| <= 16384
                               then var to := if dst == 0 then w.pipes[p].owner else dst;
                                    w.pipes[p].(packets := w.pipes[p].packets + [Packet(w.table[w.current].pid, to, data)])
                               else w.pipes[p])
  {
  }

  /** Only the owner breaks a pipe, and a broken pipe stays broken. */
  lemma BrokenByOwner(w: World, a: Action, p: nat)
    requires w.current < |w.table| && p < |w.pipes|
    ensures var w' := Next(w, a); p < |w'.pipes| && w'.pipes[p].owner == w.pipes[p].owner
    ensures w.pipes[p].broken ==> Next(w, a).pipes[p].broken
    ensures !w.pipes[p].broken && Next(w, a).pipes[p].broken ==> a.Close? && w.pipes[p].owner == CurrentThread(w).pid
  {
    hide Interrupt, Block, FindPipe, FindName, KillAll, FirstFor, ReadKeys;
    if !a.Send? && !a.Return? && !a.Open? && !a.Close? {
      hide Next;
      OtherPipes(w, a);
    }
  }
}
