/** Round robin: how long a runnable task waits, and when the idle task runs. */
module Scheduler {
  import opened Common
  import opened Kernel
  import opened KernelInvariant
  import KernelRuns

  /** The tasks in front of t. */
  function Before(run: seq<nat>, t: nat): seq<nat> {
    if run == [] || run[0] == t then [] else [run[0]] + Before(run[1..], t)
  }

  function TicksLeft(tasks: seq<Task>, t: nat): int {
    if t < |tasks| && !tasks[t].idle then tasks[t].remain / SCHED_PIT_INTERVAL else 0
  }

  /** Ticks until the tasks have used up their time; the idle task is passed over. */
  function Work(tasks: seq<Task>, ahead: seq<nat>): int {
    if ahead == [] then 0 else TicksLeft(tasks, ahead[0]) + Work(tasks, ahead[1..])
  }

  function NonIdle(tasks: seq<Task>, ahead: seq<nat>): nat {
    if ahead == [] then 0 else (if IsIdle(tasks, ahead[0]) then 0 else 1) + NonIdle(tasks, ahead[1..])
  }

  /** The tasks that run before t does: the running one, wherever it is in the queue, and those in front of t. */
  function Ahead(s: State, t: nat): seq<nat> {
    if t == s.running then [] else [s.running] + Remove(Before(s.run, t), s.running)
  }

  /** Ticks until t runs. */
  function Wait(s: State, t: nat): int {
    (if s.running != t && IsIdle(s.tasks, s.running) then 1 else 0) + Work(s.tasks, Ahead(s, t))
  }

  lemma {:induction false} BeforeLonger(x: seq<nat>, y: seq<nat>, t: nat)
    requires t in x
    ensures Before(x + y, t) == Before(x, t)
  {
    if x[0] != t {
      assert (x + y)[1..] == x[1..] + y;
      BeforeLonger(x[1..], y, t);
    }
  }

  lemma {:induction false} BeforeIn(x: seq<nat>, t: nat)
    ensures forall u :: u in Before(x, t) ==> u in x && u != t
  {
    if x != [] && x[0] != t { BeforeIn(x[1..], t); }
  }

  lemma {:induction false} SameWork(tasks: seq<Task>, tasks': seq<Task>, ahead: seq<nat>)
    requires |tasks| == |tasks'|
    requires forall u :: u in ahead && u < |tasks| ==>
             tasks[u].idle == tasks'[u].idle && tasks[u].remain == tasks'[u].remain
    ensures Work(tasks, ahead) == Work(tasks', ahead)
  {
    if ahead != [] { SameWork(tasks, tasks', ahead[1..]); }
  }

  /** Each of k tasks ahead takes between one and five ticks. */
  lemma {:induction false} WorkBounds(tasks: seq<Task>, ahead: seq<nat>)
    requires forall u :: u in ahead ==> u < |tasks| && (tasks[u].idle || TimeLeft(tasks[u].remain))
    ensures NonIdle(tasks, ahead) <= Work(tasks, ahead) <= 5 * NonIdle(tasks, ahead)
  {
    if ahead != [] {
      assert ahead[0] in ahead && forall u :: u in ahead[1..] ==> u in ahead;
      WorkBounds(tasks, ahead[1..]);
    }
  }

  lemma {:induction false} WorkFirst(tasks: seq<Task>, h: nat, rest: seq<nat>)
    requires h < |tasks|
    ensures Work(tasks, [h] + rest)
            == (if tasks[h].idle then 0 else tasks[h].remain / SCHED_PIT_INTERVAL) + Work(tasks, rest)
  {
    assert ([h] + rest)[1..] == rest;
  }

  /** The run queue without repetitions, and its only idle task. */
  lemma RunQueue(s: State)
    requires ListsOk(s)
    ensures Distinct(s.run) && |s.run| >= 2
    ensures forall t :: t in s.run ==> Live(s.tasks, t) && TaskOk(s.tasks[t], t)
  {
    hide Count, TaskOk;
    forall t: nat ensures Count(s.run, t) <= 1 { OnlyThere(s, t); }
    OnceDistinct(s.run);
    forall t | t in s.run ensures Live(s.tasks, t) && TaskOk(s.tasks[t], t) { OnlyThere(s, t); }
  }

  /** Taking h out commutes with looking in front of t. */
  lemma {:induction false} BeforeRemoved(run: seq<nat>, h: nat, t: nat)
    requires Distinct(run) && t != h
    ensures Before(Remove(run, h), t) == Remove(Before(run, t), h)
  {
    if run != [] {
      var rest := run[1..];
      if run[0] == h {
        BeforeFirst(h, rest, t);
        BeforeIn(rest, t);
        RemoveNone(Before(rest, t), h);
        assert Remove(run, h) == rest && run == [h] + rest;
      } else if run[0] != t {
        BeforeRemoved(rest, h, t);
        BeforeFirst(run[0], rest, t);
        BeforeFirst(run[0], Remove(rest, h), t);
        assert Remove(run, h) == [run[0]] + Remove(rest, h) && run == [run[0]] + rest;
        assert Remove([run[0]] + Before(rest, t), h) == [run[0]] + Remove(Before(rest, t), h);
      }
    }
  }

  lemma BeforeFirst(h: nat, rest: seq<nat>, t: nat)
    requires h != t
    ensures Before([h] + rest, t) == [h] + Before(rest, t)
  {
    assert ([h] + rest)[1..] == rest;
  }

  /** The running task goes to the end, wherever it was. */
  lemma RotateRunning(s: State)
    requires s.running in s.run && Distinct(s.run)
    ensures RunningToLast(s) == s.(run := Remove(s.run, s.running) + [s.running])
  {
    if s.run[|s.run| - 1] == s.running {
      RemoveFirst(s.run, |s.run| - 1);
      assert s.run == s.run[..|s.run| - 1] + [s.running];
    }
  }

  /** The new head after a rotation: the idle task steps aside. */
  lemma LaunchedRun(s: State)
    requires |s.run| >= 2
    ensures Launch(s).tasks == s.tasks && Launch(s).run != [] && Launch(s).running == Launch(s).run[0]
    ensures Launch(s).run == if IsIdle(s.tasks, s.run[0]) then s.run[1..] + [s.run[0]] else s.run
  {
  }

  /** Waiting time when the running task h has gone to the end, behind the rest. */
  lemma RotatedWait(rest: seq<nat>, h: nat, s': State, t: nat)
    requires Distinct(rest) && t in rest && h !in rest && t != IDLE_TASK
    requires forall u :: u in rest || u == h ==> u < |s'.tasks| && s'.tasks[u].idle == (u == IDLE_TASK)
    requires var r := rest + [h]; s'.run == if IsIdle(s'.tasks, r[0]) then r[1..] + [r[0]] else r
    requires s'.running == s'.run[0]
    ensures Wait(s', t) == Work(s'.tasks, Before(rest, t)) && t in s'.run
  {
    hide Work;
    var r := rest + [h];
    assert r[0] == rest[0];
    if IsIdle(s'.tasks, r[0]) {
      var rest' := rest[1..];
      assert t in rest';
      assert r[1..] + [r[0]] == rest' + [h, r[0]];
      BeforeLonger(rest', [h, r[0]], t);
      WorkFirst(s'.tasks, rest[0], Before(rest', t));
      assert Before(rest, t) == [rest[0]] + Before(rest', t);
      assert rest'[0] in rest && rest'[0] == rest[1] != rest[0];
    } else {
      BeforeLonger(rest, [h], t);
    }
    HeadedAhead(s', t);
  }

  /** If the running task is the head of the queue, just those in front of t run before it. */
  lemma HeadedAhead(s: State, t: nat)
    requires Headed(s)
    ensures Ahead(s, t) == Before(s.run, t)
  {
    if t != s.running {
      BeforeStep(s.run, t);
      assert Remove([s.running] + Before(s.run[1..], t), s.running) == Before(s.run[1..], t);
    }
  }

  lemma BeforeStep(run: seq<nat>, t: nat)
    requires run != [] && run[0] != t
    ensures Before(run, t) == [run[0]] + Before(run[1..], t)
  {
  }

  /** One tick brings a waiting task exactly one tick closer. */
  lemma TickWait(s: State, t: nat)
    requires ListsOk(s) && s.running in s.run && t in s.run && t != s.running && t != IDLE_TASK
    ensures s.running < |s.tasks|
    ensures Wait(TickStep(s), t) == Wait(s, t) - 1 && t in TickStep(s).run
  {
    hide ListsOk, Work, Before, Launch, RunningToLast, Remove;
    RunQueue(s);
    var h := s.running;
    var rest := Remove(s.run, h);
    var ahead := Remove(Before(s.run, t), h);
    RemoveKeeps(s.run, h);
    BeforeRemoved(s.run, h, t);
    WorkFirst(s.tasks, h, ahead);
    BeforeIn(rest, t);
    var due := s.tasks[h].idle || s.tasks[h].remain - SCHED_PIT_INTERVAL <= 0;
    var s' := TickStep(s);
    if due {
      var s1 := if s.tasks[h].idle then s else Refill(s, h);
      RotateRunning(s1);
      assert rest + [h] != [] && (rest + [h])[0] == rest[0];
      LaunchedRun(s1.(run := rest + [h]));
      RotatedWait(rest, h, s', t);
      SameWork(s.tasks, s1.tasks, ahead);
    } else {
      SameWork(s.tasks, s'.tasks, ahead);
      WorkFirst(s'.tasks, h, ahead);
    }
  }

  function Ticks(n: nat): seq<Event> {
    seq(n, _ => Tick)
  }

  lemma WaitBounds(s: State, t: nat)
    requires ListsOk(s) && s.running in s.run && t in s.run && t != IDLE_TASK
    ensures (if t == s.running then 0 else 1) <= Wait(s, t) <= 5 * NonIdle(s.tasks, Ahead(s, t)) + 1
    ensures t == s.running ==> Wait(s, t) == 0
  {
    hide ListsOk, Work, NonIdle, Remove;
    RunQueue(s);
    if t == s.running {
      NoWork(s.tasks);
    } else {
      var ahead := Remove(Before(s.run, t), s.running);
      RemoveKeeps(s.run, s.running);
      BeforeRemoved(s.run, s.running, t);
      BeforeIn(Remove(s.run, s.running), t);
      WorkFirst(s.tasks, s.running, ahead);
      WorkBounds(s.tasks, ahead);
      WorkBounds(s.tasks, [s.running] + ahead);
    }
  }

  lemma NoWork(tasks: seq<Task>)
    ensures Work(tasks, []) == 0 && NonIdle(tasks, []) == 0
  {
  }

  /** With only ticks, a runnable task runs after exactly Wait ticks and not before: within five ticks for each
      task that runs before it, and one more. */
  lemma {:induction false} RunsAfterWait(s: State, t: nat, n: nat)
    requires ListsOk(s) && Guard(s, Tick) && s.running in s.run && t in s.run && t != IDLE_TASK && n <= Wait(s, t)
    ensures CanRun(s, Ticks(n))
    ensures Run(s, Ticks(n)).running == t <==> n == Wait(s, t)
    ensures Wait(s, t) <= 5 * NonIdle(s.tasks, Ahead(s, t)) + 1
    decreases n
  {
    hide ListsOk, Wait, Ahead, TickStep, NonIdle;
    WaitBounds(s, t);
    if n > 0 {
      TickKeeps(s);
      TickWait(s, t);
      var s' := TickStep(s);
      NextTick(s, s');
      RunsAfterWait(s', t, n - 1);
      assert Ticks(n)[1..] == Ticks(n - 1);
    }
  }

  lemma NextTick(s: State, s': State)
    requires Guard(s, Tick) && ListsOk(s) && Quiet(s, s')
    ensures ListsOk(s') && Guard(s', Tick) && s'.running in s'.run
  {
    hide Placed, Count;
    OnlyThere(s', s'.running);
  }

  /** Whoever is launched, it is the idle task only if that task is alone in the run queue. */
  lemma IdleOnlyAlone(s: State)
    requires s.run != [] && Distinct(s.run)
    requires forall i, j :: 0 <= i < j < |s.run| ==> !(IsIdle(s.tasks, s.run[i]) && IsIdle(s.tasks, s.run[j]))
    ensures IsIdle(s.tasks, Launch(s).running) <==> |s.run| == 1 && IsIdle(s.tasks, s.run[0])
  {
  }

  /** In every reachable state the time left of each task but the idle one is 10, 20, 30, 40 or 50. */
  lemma EveryRunTimes(events: seq<Event>, t: nat)
    requires CanRun(Boot(), events)
    ensures var s := Run(Boot(), events);
            Live(s.tasks, t) && t != IDLE_TASK ==> s.tasks[t].remain in {10, 20, 30, 40, 50}
  {
    hide CanRun, Run, Boot, Inv;
    KernelRuns.BootInv();
    var chains := KernelRuns.RunKeeps(Boot(), events, KernelRuns.NoChains());
    var s := Run(Boot(), events);
    if Live(s.tasks, t) && t != IDLE_TASK {
      KernelRuns.InvParts(s, chains);
      KernelRuns.UserTask(s, t);
    }
  }

  /** Bounded waiting in every state that boot can reach, also after windows of other tasks are closed. */
  lemma EveryRunWaits(events: seq<Event>, t: nat)
    requires CanRun(Boot(), events)
    requires t in Run(Boot(), events).run && t != IDLE_TASK
    ensures var s := Run(Boot(), events);
            exists n: nat :: n <= 5 * NonIdle(s.tasks, Ahead(s, t)) + 1
                          && CanRun(s, Ticks(n)) && Run(s, Ticks(n)).running == t
  {
    hide CanRun, Run, Boot, Inv, Ahead, NonIdle, Wait, Ticks;
    KernelRuns.BootInv();
    var chains := KernelRuns.RunKeeps(Boot(), events, KernelRuns.NoChains());
    var s := Run(Boot(), events);
    KernelRuns.InvParts(s, chains);
    TickGuard(s, chains);
    WaitBounds(s, t);
    RunsAfterWait(s, t, Wait(s, t));
  }

  lemma TickGuard(s: State, chains: seq<seq<nat>>)
    requires Inv(s, chains)
    ensures Guard(s, Tick)
  {
    hide Tied, Stacked, Focused;
    Sizes(s, chains);
    UserRuns(s);
  }
}
