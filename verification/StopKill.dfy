/**
 * What a STOP or KILL command that ran to its end has done: it signalled the process it looked up,
 * or handed the task to a dispatcher of its stop commands.
 */
module StopKill {
  import opened Options
  import opened Tasks
  import opened TaskDB
  import opened Scheduler

  predicate StepOf(l: Label, c: nat) {
    l.Continue? && l.c == c
  }

  /** From step b on client c is on one command for the named task, and no other. */
  ghost predicate OneCommand(ls: seq<Label>, c: nat, b: nat, name: string, kill: bool, k: nat) {
    && b < k <= |ls| && ls[b] == Begin(c, name, kill)
    && forall i :: b < i < k ==> !(ls[i].Begin? && ls[i].c == c)
  }

  /** Step p marks the task so that it is not respawned. */
  ghost predicate Marks(ss: seq<Sys>, ls: seq<Label>, c: nat, name: string, p: nat) {
    && p < |ls| && p < |ss| && StepOf(ls[p], c) && Enabled(ss[p], ls[p])
    && OpOf(ss[p], ls[p]) == Some(SetRespawnInhibit(name, true))
  }

  /** At step q the task is looked up. */
  ghost predicate LooksUp(ss: seq<Sys>, ls: seq<Label>, c: nat, name: string, q: nat) {
    q < |ls| && q < |ss| && StepOf(ls[q], c) && Has(ss[q].db.tasks, name)
  }

  /** The task found has stop commands, and the command is a STOP. */
  predicate ByStopCommands(t: Task, kill: bool) {
    !kill && t.stopCmds > 0
  }

  /** At step m a signal is sent to the process that was looked up. */
  ghost predicate Signals(ss: seq<Sys>, ls: seq<Label>, c: nat, t: Task, m: nat) {
    && m < |ls| && m < |ss| && ls[m] == Continue(c, true) && c < |ss[m].clients|
    && ss[m].clients[c].Signalling? && ss[m].clients[c].name == t.name && ss[m].clients[c].pid == t.pid > 0
  }

  /** At step m the task gets a dispatcher for its stop commands. */
  ghost predicate StopsBy(ss: seq<Sys>, ls: seq<Label>, c: nat, t: Task, m: nat) {
    && m < |ls| && m + 1 < |ss| && ls[m] == Continue(c, true)
    && ss[m + 1].disp == ss[m].disp + [Dispatcher(t.name, Stop, t, -1, Copying)]
  }

  /** How far the command has come at state k: marked at p, looked up at q, carried out at m. */
  ghost predicate Trace(ss: seq<Sys>, ls: seq<Label>, c: nat, b: nat, name: string, kill: bool, k: nat,
                        p: nat, q: nat, m: nat)
    requires k < |ss| && c < |ss[k].clients|
  {
    match ss[k].clients[c]
    case Idle => true
    case Inhibited(n, kl) => n == name && kl == kill
    case Marked(n) => n == name && !kill && b < p < k && Marks(ss, ls, c, name, p)
    case SpawningStop(copy) =>
      && Found(ss, ls, c, b, name, kill, k, p, q)
      && copy == Named(ss[q].db.tasks, name) && ByStopCommands(copy, kill)
    case Signalling(n, pid, _) =>
      && n == name && Found(ss, ls, c, b, name, kill, k, p, q)
      && pid == Named(ss[q].db.tasks, name).pid > 0 && !ByStopCommands(Named(ss[q].db.tasks, name), kill)
    case Releasing => q < m < k && Found(ss, ls, c, b, name, kill, k, p, q) && Done(ss, ls, c, name, kill, q, m)
  }

  ghost predicate Found(ss: seq<Sys>, ls: seq<Label>, c: nat, b: nat, name: string, kill: bool, k: nat,
                        p: nat, q: nat)
  {
    && b < q < k && LooksUp(ss, ls, c, name, q)
    && (!kill ==> b < p < q && Marks(ss, ls, c, name, p))
  }

  ghost predicate Done(ss: seq<Sys>, ls: seq<Label>, c: nat, name: string, kill: bool, q: nat, m: nat)
    requires LooksUp(ss, ls, c, name, q)
  {
    var t := Named(ss[q].db.tasks, name);
    if ByStopCommands(t, kill) then StopsBy(ss, ls, c, t, m) else Signals(ss, ls, c, t, m)
  }

  /** Steps of others leave the client where it is. */
  lemma ClientStays(s: Sys, l: Label, c: nat)
    requires Enabled(s, l) && c < |s.clients| && !StepOf(l, c) && !(l.Begin? && l.c == c)
    ensures c < |Next(s, l).clients| && Next(s, l).clients[c] == s.clients[c]
  {
  }

  /** The client's own step. */
  lemma ClientGoesOn(ss: seq<Sys>, ls: seq<Label>, c: nat, b: nat, name: string, kill: bool, k: nat,
                     p: nat, q: nat, m: nat) returns (p': nat, q': nat, m': nat)
    requires |ss| == |ls| + 1 && b < k < |ls| && StepAt(ss, ls, k) && StepOf(ls[k], c) && c < |ss[k].clients|
    requires Trace(ss, ls, c, b, name, kill, k, p, q, m)
    ensures c < |ss[k + 1].clients| && Trace(ss, ls, c, b, name, kill, k + 1, p', q', m')
  {
    p', q', m' := p, q, m;
    match ss[k].clients[c]
    case Inhibited(_, kl) =>
      if kl {
        q' := k;
      } else {
        p' := k;
      }
    case Marked(_) => q' := k;
    case _ => m' := k;
  }

  lemma BeginTraced(ss: seq<Sys>, ls: seq<Label>, c: nat, b: nat, name: string, kill: bool, p: nat, q: nat, m: nat)
    requires |ss| == |ls| + 1 && b < |ls| && StepAt(ss, ls, b) && ls[b] == Begin(c, name, kill)
    ensures c < |ss[b + 1].clients| && Trace(ss, ls, c, b, name, kill, b + 1, p, q, m)
  {
  }

  lemma StepTraced(ss: seq<Sys>, ls: seq<Label>, c: nat, b: nat, name: string, kill: bool, k: nat,
                   p: nat, q: nat, m: nat) returns (p': nat, q': nat, m': nat)
    requires |ss| == |ls| + 1 && b < k < |ls| && StepAt(ss, ls, k) && c < |ss[k].clients|
    requires !(ls[k].Begin? && ls[k].c == c) && Trace(ss, ls, c, b, name, kill, k, p, q, m)
    ensures c < |ss[k + 1].clients| && Trace(ss, ls, c, b, name, kill, k + 1, p', q', m')
  {
    if StepOf(ls[k], c) {
      p', q', m' := ClientGoesOn(ss, ls, c, b, name, kill, k, p, q, m);
    } else {
      p', q', m' := p, q, m;
      ClientStays(ss[k], ls[k], c);
    }
  }

  lemma {:induction false} Traced(ss: seq<Sys>, ls: seq<Label>, c: nat, b: nat, name: string, kill: bool, k: nat)
    returns (p: nat, q: nat, m: nat)
    requires IsRun(ss, ls) && OneCommand(ls, c, b, name, kill, k)
    ensures c < |ss[k].clients| && Trace(ss, ls, c, b, name, kill, k, p, q, m)
    decreases k
  {
    assert StepAt(ss, ls, k - 1);
    if k == b + 1 {
      p, q, m := 0, 0, 0;
      BeginTraced(ss, ls, c, b, name, kill, p, q, m);
    } else {
      p, q, m := Traced(ss, ls, c, b, name, kill, k - 1);
      p, q, m := StepTraced(ss, ls, c, b, name, kill, k - 1, p, q, m);
    }
  }

  /**
   * A STOP or KILL command that comes to its releasing step has looked its task up, a STOP after
   * marking it against respawning, and then has either started a dispatcher for the task's stop
   * commands, exactly if it is a STOP and the task had some, or sent its signal to the PID the task
   * had at the lookup.
   */
  lemma ReleasedHasActed(ss: seq<Sys>, ls: seq<Label>, c: nat, b: nat, name: string, kill: bool, e: nat)
    returns (p: nat, q: nat, m: nat)
    requires IsRun(ss, ls) && e < |ls| && OneCommand(ls, c, b, name, kill, e)
    requires c < |ss[e].clients| && ss[e].clients[c].Releasing?
    ensures b < q < m < e && LooksUp(ss, ls, c, name, q)
    ensures !kill ==> b < p < q && Marks(ss, ls, c, name, p)
    ensures var t := Named(ss[q].db.tasks, name);
            if ByStopCommands(t, kill) then StopsBy(ss, ls, c, t, m) else Signals(ss, ls, c, t, m)
  {
    p, q, m := Traced(ss, ls, c, b, name, kill, e);
  }
}
