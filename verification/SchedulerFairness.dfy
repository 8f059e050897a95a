/**
 Bounded waiting in runs. A decision is a step in which the scheduler looks for the next thread; a
 running thread puts it off for at most 25 timer ticks.
 */
module SchedulerFairness {
  import opened SchedulerModel
  import opened SchedulerInvariants

  /** The world in which the next thread is looked for, if it is. */
  datatype Decision = NoDecision | Decides(w: World)

  function AtInterrupt(w: World): Decision
    requires w.current < |w.table|
  {
    var c := w.table[w.current];
    if c.state != Running || w.clock - c.slice > 25 then Decides(Retire(w)) else NoDecision
  }

  function AtBlock(w: World, b: Blocker): Decision
    requires w.current < |w.table|
  {
    AtInterrupt(With(w, w.current, CurrentThread(w).(blocker := b, waiting := b, state := Yielded)))
  }

  function DecisionOf(w: World, a: Action): Decision
    requires w.current < |w.table|
  {
    var c := CurrentThread(w);
    match a
    case Timer => AtInterrupt(w.(clock := w.clock + 1))
    case Kill => AtInterrupt(With(w, w.current, c.(state := Dead)))
    case Exit(pid) => if c.pid == pid then AtInterrupt(w.(table := KillAll(w.table, pid))) else NoDecision
    case Sleep(ms) => AtBlock(w, SleepUntil(w.clock + ms))
    case WaitProcess(pid) => AtBlock(w, ProcessWait(pid))
    case ReadLine => AtBlock(w, KeyWait('\n'))
    case Join(t) => if t in w.list && t != w.current then AtBlock(w, ThreadJoin(t)) else NoDecision
    case Receive(id) =>
      var p := FindPipe(w.pipes, id, 0);
      if p < |w.pipes| then AtBlock(w, PipeWait(c.pid, p)) else NoDecision
    case _ => NoDecision
  }

  /** What a step without a decision leaves alone: who is current, the counter, and the slice. */
  ghost predicate GoesOn(w: World, w': World, ticks: nat)
  {
    && w.current == w'.current < |w.table| <= |w'.table| && w'.ctr == w.ctr && w'.clock == w.clock + ticks
    && w'.table[w.current].slice == w.table[w.current].slice
    && (w'.table[w.current].state == Running ==> w.table[w.current].state == Running)
  }

  function TickOf(a: Action): nat
  {
    if a == Timer then 1 else 0
  }

  /** A step is a search in the deciding world, or it goes on. */
  lemma StepDecides(w: World, a: Action)
    requires w.current < |w.table|
    ensures match DecisionOf(w, a)
            case Decides(d) => Next(w, a) == Preempt(d)
            case NoDecision => GoesOn(w, Next(w, a), TickOf(a))
  {
    hide Preempt, FindPipe, FindName, TakePacket, ReadKeys;
  }

  /** What a timer tick does not decide lies within the first 25 ticks of a slice. */
  lemma TickDecides(w: World)
    requires w.current < |w.table|
    ensures DecisionOf(w, Timer).NoDecision?
       <==> w.table[w.current].state == Running && w.clock + 1 - w.table[w.current].slice <= 25
  {
  }

  lemma DecidersClock(w: World, a: Action)
    requires w.current < |w.table| && DecisionOf(w, a).Decides?
    ensures var d := DecisionOf(w, a).w;
            && d.ctr == w.ctr && d.clock == w.clock + TickOf(a)
            && d.current < |d.table| && d.table[d.current].state != Running
  {
    hide FindPipe;
  }

  /** After a search the current thread runs only with a slice that starts now. */
  lemma NewSlice(d: World)
    requires d.current < |d.table| && d.table[d.current].state != Running
    ensures var w := Preempt(d);
            && w.current < |w.table| && w.clock == d.clock && w.list == d.list
            && (w.table[w.current].state == Running ==> w.table[w.current].slice == w.clock)
  {
    hide Scan;
  }

  // ---------- the decisions of a run ----------

  ghost predicate Currents(ws: seq<World>)
  {
    forall i :: 0 <= i < |ws| ==> ws[i].current < |ws[i].table|
  }

  lemma RunCurrents(ws: seq<World>, acts: seq<Action>, idle: nat)
    requires IsRun(ws, acts, idle)
    ensures Currents(ws)
  {
    hide Inv, IsRun;
    forall i | 0 <= i < |ws| ensures ws[i].current < |ws[i].table| {
      InvAlways(ws, acts, idle, i);
      InvCurrent(ws[i], idle);
    }
  }

  /** The deciding worlds of the first n steps. */
  function Deciders(ws: seq<World>, acts: seq<Action>, n: nat): (ds: seq<World>)
    requires n <= |acts| && |ws| == |acts| + 1 && Currents(ws)
    ensures |ds| <= n
  {
    if n == 0 then []
    else
      var ds := Deciders(ws, acts, n - 1);
      match DecisionOf(ws[n - 1], acts[n - 1])
      case Decides(d) => ds + [d]
      case NoDecision => ds
  }

  function Ticks(acts: seq<Action>, n: nat): nat
    requires n <= |acts|
  {
    if n == 0 then 0 else Ticks(acts, n - 1) + TickOf(acts[n - 1])
  }

  /** Ticks of the slice that has not ended; a thread that is not Running is preempted by the next one. */
  function Slack(w: World): int
    requires w.current < |w.table|
  {
    var c := w.table[w.current];
    if c.state == Running && w.clock - c.slice <= 25 then w.clock - c.slice else 25
  }

  ghost predicate SliceBegan(w: World)
  {
    w.current < |w.table| && (w.table[w.current].state == Running ==> w.table[w.current].slice <= w.clock)
  }

  /** Ticks are paid for by slack, and 26 of them by a decision. */
  lemma StepTicks(w: World, a: Action)
    requires SliceBegan(w)
    ensures var w' := Next(w, a);
            && SliceBegan(w')
            && Slack(w) + TickOf(a) <= Slack(w') + if DecisionOf(w, a).Decides? then 26 else 0
  {
    hide DecisionOf, Next, Preempt;
    StepDecides(w, a);
    TickDecides(w);
    if DecisionOf(w, a).Decides? {
      DecidersClock(w, a);
      NewSlice(DecisionOf(w, a).w);
    }
  }

  lemma DecidersStep(ws: seq<World>, acts: seq<Action>, n: nat)
    requires 0 < n <= |acts| && |ws| == |acts| + 1 && Currents(ws)
    ensures Deciders(ws, acts, n)
         == match DecisionOf(ws[n - 1], acts[n - 1])
            case Decides(d) => Deciders(ws, acts, n - 1) + [d]
            case NoDecision => Deciders(ws, acts, n - 1)
  {
  }

  lemma RunSize(ws: seq<World>, acts: seq<Action>, idle: nat)
    requires IsRun(ws, acts, idle)
    ensures |ws| == |acts| + 1
  {
  }

  lemma RunStep(ws: seq<World>, acts: seq<Action>, idle: nat, n: nat)
    requires IsRun(ws, acts, idle) && 0 < n <= |acts|
    ensures ws[n - 1].current < |ws[n - 1].table| && ws[n] == Next(ws[n - 1], acts[n - 1])
  {
    hide Inv, Next, Enabled;
    assert StepOf(ws[n - 1], acts[n - 1], ws[n - 1 + 1], idle);
  }

  lemma {:induction false} TicksBound(ws: seq<World>, acts: seq<Action>, idle: nat, n: nat)
    requires IsRun(ws, acts, idle) && Currents(ws) && SliceBegan(ws[0]) && n <= |acts|
    ensures SliceBegan(ws[n])
    ensures Ticks(acts, n) <= 26 * |Deciders(ws, acts, n)| + Slack(ws[n])
  {
    hide DecisionOf, Next, Inv, IsRun, Deciders, SliceBegan, Slack;
    RunSize(ws, acts, idle);
    if n > 0 {
      TicksBound(ws, acts, idle, n - 1);
      RunStep(ws, acts, idle, n);
      StepTicks(ws[n - 1], acts[n - 1]);
      DecidersStep(ws, acts, n);
    } else {
      FirstSlack(ws, acts);
    }
  }

  lemma FirstSlack(ws: seq<World>, acts: seq<Action>)
    requires |ws| == |acts| + 1 && Currents(ws) && SliceBegan(ws[0])
    ensures Deciders(ws, acts, 0) == [] && Slack(ws[0]) >= 0
  {
  }

  predicate ReadyAt(w: World, a: Action, t: nat)
  {
    w.current < |w.table| && DecisionOf(w, a).Decides? ==> CanRun(DecisionOf(w, a).w, t)
  }

  /** The thread can run in every deciding world, and the list stays the same. */
  ghost predicate AlwaysReady(ws: seq<World>, acts: seq<Action>, list: seq<nat>, t: nat)
    requires |ws| == |acts| + 1
  {
    && |list| > 0 && (forall i :: 0 <= i < |ws| ==> ws[i].list == list)
    && forall i :: 0 <= i < |acts| ==> ReadyAt(ws[i], acts[i], t)
  }

  ghost predicate WasCurrent(ws: seq<World>, t: nat, n: nat)
  {
    exists i :: 0 < i <= n && i < |ws| && ws[i].current == t
  }

  /** The decisions so far follow one another, and each made a thread current. */
  ghost predicate Followed(ws: seq<World>, ds: seq<World>, list: seq<nat>, t: nat, ctr: nat, n: nat)
  {
    && |list| > 0 && Decisions(ds, list)
    && (forall m :: 0 <= m < |ds| ==> CanRun(ds[m], t))
    && (|ds| > 0 ==> ctr == Scan(ds[|ds| - 1], ds[|ds| - 1].ctr, |list|).ctr)
    && forall m :: 0 <= m < |ds| ==> WasCurrent(ws, Scan(ds[m], ds[m].ctr, |list|).tid, n)
  }

  lemma FollowedMore(ws: seq<World>, ds: seq<World>, list: seq<nat>, t: nat, n: nat, d: World, k: nat)
    requires Followed(ws, ds, list, t, d.ctr, n) && d.list == list && t in list && CanRun(d, t) && k == n + 1 < |ws|
    requires ws[k].current == Preempt(d).current
    ensures Followed(ws, ds + [d], list, t, Preempt(d).ctr, k)
  {
    hide CanRun, Scan, Preempt;
    SearchChooses(d, t);
    var es := ds + [d];
    forall m | 0 <= m < |es| ensures WasCurrent(ws, Scan(es[m], es[m].ctr, |list|).tid, k) {
      if m < |ds| {
        assert es[m] == ds[m];
      }
    }
  }

  lemma FollowedOn(ws: seq<World>, ds: seq<World>, list: seq<nat>, t: nat, ctr: nat, n: nat, k: nat)
    requires Followed(ws, ds, list, t, ctr, n) && k == n + 1
    ensures Followed(ws, ds, list, t, ctr, k)
  {
    hide CanRun, Scan;
  }

  lemma SearchChooses(d: World, t: nat)
    requires t in d.list && CanRun(d, t)
    ensures var c := Scan(d, d.ctr, |d.list|);
            c.Chosen? && Preempt(d).current == c.tid && Preempt(d).ctr == c.ctr && Preempt(d).list == d.list
  {
    SomebodyRuns(d, t);
    ChosenCanRun(d, d.ctr, |d.list|);
  }

  lemma {:induction false} DecisionsFollow(ws: seq<World>, acts: seq<Action>, idle: nat, list: seq<nat>, t: nat, n: nat)
    requires IsRun(ws, acts, idle) && Currents(ws) && AlwaysReady(ws, acts, list, t) && t in list && n <= |acts|
    ensures Followed(ws, Deciders(ws, acts, n), list, t, ws[n].ctr, n)
  {
    hide DecisionOf, Next, Preempt, Inv, IsRun, Scan, CanRun, Deciders, Followed;
    RunSize(ws, acts, idle);
    if n > 0 {
      DecisionsFollow(ws, acts, idle, list, t, n - 1);
      var w, a := ws[n - 1], acts[n - 1];
      RunStep(ws, acts, idle, n);
      StepDecides(w, a);
      DecidersStep(ws, acts, n);
      if DecisionOf(w, a).Decides? {
        var d := DecisionOf(w, a).w;
        DecidersClock(w, a);
        NewSlice(d);
        FollowedMore(ws, Deciders(ws, acts, n - 1), list, t, n - 1, d, n);
      } else {
        FollowedOn(ws, Deciders(ws, acts, n - 1), list, t, w.ctr, n - 1, n);
      }
    } else {
      NothingFollows(ws, acts, list, t);
    }
  }

  lemma NothingFollows(ws: seq<World>, acts: seq<Action>, list: seq<nat>, t: nat)
    requires |ws| == |acts| + 1 && Currents(ws) && |list| > 0
    ensures Followed(ws, Deciders(ws, acts, 0), list, t, ws[0].ctr, 0)
  {
  }

  /** In any part of a run in which the list stays the same and the thread can run whenever the next one is
      looked for, the thread becomes current within 26 timer ticks for each thread in the list. */
  lemma TurnComesInTicks(ws: seq<World>, acts: seq<Action>, idle: nat, list: seq<nat>, t: nat) returns (i: nat)
    requires IsRun(ws, acts, idle) && SliceBegan(ws[0])
    requires AlwaysReady(ws, acts, list, t) && t in list
    requires Ticks(acts, |acts|) >= 26 * |list|
    ensures 0 < i < |ws| && ws[i].current == t
  {
    hide DecisionOf, Next, Inv, IsRun, Scan, CanRun, Deciders, Slack, Currents;
    RunSize(ws, acts, idle);
    RunCurrents(ws, acts, idle);
    CurrentAt(ws, |acts|);
    var n := |acts|;
    TicksBound(ws, acts, idle, n);
    SlackBound(ws[n]);
    DecisionsFollow(ws, acts, idle, list, t, n);
    var ds := Deciders(ws, acts, n);
    var j := BoundedWaiting(ds[..|list|], list, t);
    assert WasCurrent(ws, t, n);
    i :| 0 < i <= n && i < |ws| && ws[i].current == t;
  }

  lemma CurrentAt(ws: seq<World>, n: nat)
    requires Currents(ws) && n < |ws|
    ensures ws[n].current < |ws[n].table|
  {
  }

  lemma SlackBound(w: World)
    requires w.current < |w.table|
    ensures Slack(w) <= 25
  {
  }
}
