/** What every run of the kernel keeps: each live task is on exactly one list; terminal slots, foreground tasks, window
    stack and focus agree; and, unless another task's window is closed, every read that is asked for has a waiting
    reader. */
module KernelInvariant {
  import opened Common
  import opened Kernel

  // ----- Lists

  predicate Live(tasks: seq<Task>, t: nat) {
    t < |tasks| && tasks[t].valid
  }

  /** How often t is on the list. */
  function Count(x: seq<nat>, t: nat): nat {
    multiset(x)[t]
  }

  function OnLists(s: State, t: nat): nat {
    Count(s.run, t) + Count(s.rtc, t) + Count(s.reader, t) + Count(s.child, t)
  }

  /** Each live task is on one list, once; no other node is on any. */
  ghost predicate Placed(s: State) {
    forall t: nat :: OnLists(s, t) == if Live(s.tasks, t) then 1 else 0
  }

  /** A remaining time is a whole number of ticks, never used up. */
  predicate TimeLeft(remain: int) {
    SCHED_PIT_INTERVAL <= remain <= SCHED_TASK_TIME && remain % SCHED_PIT_INTERVAL == 0
  }

  predicate TaskOk(task: Task, t: nat) {
    && task.kernel == (t <= IDLE_TASK) && task.idle == (t == IDLE_TASK) && task.freq != 0
    && (task.idle || TimeLeft(task.remain))
  }

  ghost predicate TasksOk(tasks: seq<Task>) {
    && |tasks| == TASK_MAX_COUNT && tasks[INIT_TASK].valid && tasks[IDLE_TASK].valid
    && forall t: nat :: Live(tasks, t) ==> TaskOk(tasks[t], t)
  }

  ghost predicate ListsOk(s: State) {
    TasksOk(s.tasks) && Placed(s) && INIT_TASK in s.run && IDLE_TASK in s.run
  }

  // ----- Terminals

  /** The i-th task of the chain c of terminal k: the owner, its child, that one's child and so on; all but the last
      wait. */
  predicate Link(tasks: seq<Task>, child: seq<nat>, k: nat, c: seq<nat>, i: nat)
    requires i < |c|
  {
    Live(tasks, c[i]) &&
    var task := tasks[c[i]];
    && !task.kernel && task.term == Some(k) && task.owner == (i == 0)
    && task.parent == (if i == 0 then None else Some(c[i - 1]))
    && (c[i] in child) == (i < |c| - 1)
  }

  ghost predicate ChainOk(tasks: seq<Task>, child: seq<nat>, k: nat, c: seq<nat>) {
    && (forall i: nat :: i < |c| ==> Link(tasks, child, k, c, i))
    && (forall i, j :: 0 <= i < j < |c| ==> c[i] != c[j])
  }

  function Last(c: seq<nat>): Option<nat> {
    if c == [] then None else Some(c[|c| - 1])
  }

  predicate OnChain(chains: seq<seq<nat>>, task: Task, t: nat) {
    task.term.Some? && task.term.value < |chains| && t in chains[task.term.value]
  }

  predicate TerminalOk(slots: seq<bool>, fg: seq<Option<nat>>, chains: seq<seq<nat>>, k: nat)
    requires k < |slots| && k < |fg| && k < |chains|
  {
    slots[k] == (chains[k] != []) && fg[k] == Last(chains[k])
  }

  /** A terminal is taken exactly when it has a foreground task, the last of its chain; every user task is on the chain
      of its terminal. */
  ghost predicate Tied(tasks: seq<Task>, child: seq<nat>, slots: seq<bool>, fg: seq<Option<nat>>,
                       chains: seq<seq<nat>>) {
    && |chains| == |slots| == |fg| == TERMINAL_MAX_COUNT
    && (forall k: nat :: k < TERMINAL_MAX_COUNT ==>
        ChainOk(tasks, child, k, chains[k]) && TerminalOk(slots, fg, chains, k))
    && (forall t: nat :: Live(tasks, t) && !tasks[t].kernel ==> OnChain(chains, tasks[t], t))
  }

  predicate Open(slots: seq<bool>, k: nat) {
    k < |slots| && slots[k]
  }

  /** The window stack holds the window of each open terminal, once, and no other. */
  ghost predicate Stacked(stack: seq<nat>, slots: seq<bool>) {
    forall k: nat :: Count(stack, k) == if Open(slots, k) then 1 else 0
  }

  /** The focus is a foreground task, and it is empty only if there is none. */
  ghost predicate Focused(fg: seq<Option<nat>>, focus: Option<nat>) {
    if focus.Some? then focus in fg else forall k :: 0 <= k < |fg| ==> fg[k].None?
  }

  ghost predicate Inv(s: State, chains: seq<seq<nat>>) {
    && ListsOk(s) && s.running in s.run && Tied(s.tasks, s.child, s.slots, s.fg, chains)
    && Stacked(s.stack, s.slots) && Focused(s.fg, s.focus) && |s.ask| == TERMINAL_MAX_COUNT
  }

  /** The running task is the head of the run queue. */
  predicate Headed(s: State) {
    s.run != [] && s.run[0] == s.running
  }

  /** The foreground task of a terminal that is asked for input waits for it. */
  predicate Asks(ask: seq<nat>, fg: seq<Option<nat>>, reader: seq<nat>, k: nat)
    requires k < |ask| && k < |fg|
  {
    ask[k] == 0 || (fg[k].Some? && fg[k].value in reader)
  }

  ghost predicate Answered(s: State) {
    && |s.ask| == |s.fg| == TERMINAL_MAX_COUNT
    && forall k: nat :: k < TERMINAL_MAX_COUNT ==> Asks(s.ask, s.fg, s.reader, k)
  }

  // ----- Lists under a step

  lemma {:induction false} RemoveOnce(x: seq<nat>, t: nat)
    ensures forall u: nat :: Count(Remove(x, t), u) == if u == t && t in x then Count(x, u) - 1 else Count(x, u)
    ensures t !in x ==> Remove(x, t) == x
  {
    if x != [] {
      assert x == [x[0]] + x[1..];
      CountFirst(x[1..], x[0]);
      if x[0] != t {
        RemoveOnce(x[1..], t);
        CountFirst(Remove(x[1..], t), x[0]);
      } else {
        CountIn(x);
      }
    }
  }

  lemma CountIn(x: seq<nat>)
    ensures forall t: nat :: t in x <==> Count(x, t) > 0
  {
  }

  lemma CountFirst(x: seq<nat>, t: nat)
    ensures forall u: nat :: Count([t] + x, u) == Count(x, u) + if u == t then 1 else 0
  {
  }

  lemma CountLast(x: seq<nat>, t: nat)
    ensures forall u: nat :: Count(x + [t], u) == Count(x, u) + if u == t then 1 else 0
  {
  }

  ghost predicate SameTasks(a: seq<Task>, b: seq<Task>) {
    && |a| == |b|
    && forall t :: 0 <= t < |a| ==>
         a[t].(remain := 0, freq := 0, counter := 0) == b[t].(remain := 0, freq := 0, counter := 0)
  }

  /** Only the order within lists or the timing of tasks has changed. */
  lemma Resettle(s: State, s': State)
    requires ListsOk(s) && SameTasks(s.tasks, s'.tasks) && TasksOk(s'.tasks)
    requires forall t: nat :: OnLists(s', t) == OnLists(s, t)
    requires INIT_TASK in s'.run && IDLE_TASK in s'.run
    ensures ListsOk(s')
  {
    hide TasksOk, OnLists, TaskOk;
    assert forall t: nat :: Live(s.tasks, t) == Live(s'.tasks, t);
  }

  lemma SameTies(tasks: seq<Task>, tasks': seq<Task>, child: seq<nat>, slots: seq<bool>, fg: seq<Option<nat>>,
                 chains: seq<seq<nat>>)
    requires SameTasks(tasks, tasks') && Tied(tasks, child, slots, fg, chains)
    ensures Tied(tasks', child, slots, fg, chains)
  {
    hide TerminalOk;
    forall k: nat | k < TERMINAL_MAX_COUNT ensures ChainOk(tasks', child, k, chains[k]) {
      var c := chains[k];
      assert ChainOk(tasks, child, k, c);
      forall i: nat | i < |c| ensures Link(tasks', child, k, c, i) {
        assert Link(tasks, child, k, c, i);
      }
    }
    forall t: nat | Live(tasks', t) && !tasks'[t].kernel ensures OnChain(chains, tasks'[t], t) {
      assert Live(tasks, t);
    }
  }

  lemma LaunchKeeps(s: State)
    requires ListsOk(s)
    ensures ListsOk(Launch(s)) && Headed(Launch(s)) && Launch(s).running in Launch(s).run
    ensures Launch(s).(run := s.run, running := s.running) == s
  {
    hide TasksOk, Count, Live;
    var s' := Launch(s);
    assert s.run == [s.run[0]] + s.run[1..];
    CountFirst(s.run[1..], s.run[0]);
    CountLast(s.run[1..], s.run[0]);
    CountIn(s.run);
    CountIn(s'.run);
    assert forall t: nat :: OnLists(s', t) == OnLists(s, t);
  }

  lemma RefillKeeps(s: State, t: nat)
    requires TasksOk(s.tasks) && t != IDLE_TASK
    ensures TasksOk(Refill(s, t).tasks) && SameTasks(s.tasks, Refill(s, t).tasks)
    ensures Refill(s, t).(tasks := s.tasks) == s
  {
    assert forall u: nat :: Live(s.tasks, u) == Live(Refill(s, t).tasks, u);
  }

  /** A live task is on one list only. */
  lemma OnlyThere(s: State, t: nat)
    requires ListsOk(s)
    ensures Count(s.run, t) + Count(s.rtc, t) + Count(s.reader, t) + Count(s.child, t) <= 1
    ensures t in s.run ==> t !in s.rtc && t !in s.reader && t !in s.child
    ensures t in s.reader ==> t !in s.run && t !in s.rtc && t !in s.child
    ensures t in s.child ==> t !in s.run && t !in s.rtc && t !in s.reader
    ensures t in s.run + s.rtc + s.reader + s.child <==> Live(s.tasks, t)
    ensures t <= IDLE_TASK ==> t in s.run
  {
    hide TasksOk, TaskOk, Count;
    CountIn(s.run);
    CountIn(s.rtc);
    CountIn(s.reader);
    CountIn(s.child);
    assert OnLists(s, t) == Count(s.run, t) + Count(s.rtc, t) + Count(s.reader, t) + Count(s.child, t);
  }

  // ----- Steps that open and close no task

  /** Only timing, requests and the lists other than child have changed. */
  ghost predicate Quiet(s: State, s': State) {
    && ListsOk(s') && s'.running in s'.run && SameTasks(s.tasks, s'.tasks) && s'.child == s.child
    && s'.slots == s.slots && s'.fg == s.fg && |s'.ask| == |s.ask| && s'.stack == s.stack && s'.focus == s.focus
  }

  lemma LastKeeps(s: State)
    requires ListsOk(s) && s.running in s.run
    ensures ListsOk(RunningToLast(s)) && RunningToLast(s).(run := s.run) == s
  {
    hide TasksOk, Live, Count;
    RemoveOnce(s.run, s.running);
    CountLast(Remove(s.run, s.running), s.running);
    var s' := RunningToLast(s);
    CountIn(s.run);
    CountIn(s'.run);
    assert forall t: nat :: OnLists(s', t) == OnLists(s, t);
  }

  lemma TickKeeps(s: State)
    requires ListsOk(s) && s.running in s.run
    ensures s.running < |s.tasks|
    ensures Quiet(s, TickStep(s)) && (Headed(s) ==> Headed(TickStep(s))) && TickStep(s).reader == s.reader
    ensures TickStep(s).ask == s.ask
  {
    hide Launch, RunningToLast, Refill, Placed, TasksOk;
    UserRuns(s);
    var t := s.tasks[s.running];
    if t.idle {
      LastKeeps(s);
      LaunchKeeps(RunningToLast(s));
    } else {
      var left := t.remain - SCHED_PIT_INTERVAL;
      if left <= 0 {
        RefillIdleFree(s, s.running);
        LastKeeps(Refill(s, s.running));
        LaunchKeeps(RunningToLast(Refill(s, s.running)));
      } else {
        Retimed(s, s.running, t.(remain := left));
      }
    }
  }

  /** A change in timing alone. */
  lemma TimeKeeps(s: State, tasks: seq<Task>)
    requires ListsOk(s) && SameTasks(s.tasks, tasks)
    requires forall t: nat :: Live(s.tasks, t) && Live(tasks, t) ==>
             tasks[t].freq != 0 && (tasks[t].idle || TimeLeft(tasks[t].remain))
    ensures ListsOk(s.(tasks := tasks))
  {
    forall t: nat | Live(tasks, t) ensures TaskOk(tasks[t], t) {
      assert Live(s.tasks, t);
    }
    Resettle(s, s.(tasks := tasks));
  }

  lemma YieldKeeps(s: State)
    requires ListsOk(s) && s.running in s.run
    ensures Quiet(s, YieldStep(s)) && Headed(YieldStep(s)) && YieldStep(s).reader == s.reader
    ensures YieldStep(s).ask == s.ask
  {
    hide Launch, RunningToLast, Refill;
    var s1 := if IsIdle(s.tasks, s.running) then s else Refill(s, s.running);
    if !IsIdle(s.tasks, s.running) {
      RefillIdleFree(s, s.running);
    }
    LastKeeps(s1);
    LaunchKeeps(RunningToLast(s1));
  }

  lemma RefillIdleFree(s: State, t: nat)
    requires ListsOk(s) && !IsIdle(s.tasks, t)
    ensures ListsOk(Refill(s, t)) && SameTasks(s.tasks, Refill(s, t).tasks) && Refill(s, t).(tasks := s.tasks) == s
  {
    assert Live(s.tasks, IDLE_TASK);
    assert TaskOk(s.tasks[IDLE_TASK], IDLE_TASK);
    RefillKeeps(s, t);
    Resettle(s, Refill(s, t));
  }

  /** The running task leaves the run queue for a wait list. */
  lemma BlockKeeps(s: State, s': State)
    requires ListsOk(s) && s.running in s.run && s.running > IDLE_TASK
    requires s'.run == Remove(s.run, s.running) && s'.child == s.child && s'.tasks == s.tasks
    requires (s'.rtc == [s.running] + s.rtc && s'.reader == s.reader)
             || (s'.reader == [s.running] + s.reader && s'.rtc == s.rtc)
    ensures ListsOk(s')
  {
    hide TasksOk, Live, Count;
    RemoveOnce(s.run, s.running);
    CountFirst(s.rtc, s.running);
    CountFirst(s.reader, s.running);
    CountIn(s.run);
    CountIn(s'.run);
    assert forall t: nat :: OnLists(s', t) == OnLists(s, t);
  }

  lemma UserRuns(s: State)
    requires ListsOk(s) && s.running in s.run
    ensures Live(s.tasks, s.running) && TaskOk(s.tasks[s.running], s.running)
    ensures s.running !in s.child && s.running !in s.reader
  {
    hide Placed;
    OnlyThere(s, s.running);
  }

  lemma RtcReadKeeps(s: State)
    requires ListsOk(s) && s.running in s.run && Guard(s, RtcRead)
    ensures Quiet(s, RtcReadStep(s)) && (Headed(s) ==> Headed(RtcReadStep(s))) && RtcReadStep(s).reader == s.reader
    ensures RtcReadStep(s).ask == s.ask
  {
    hide Launch, TasksOk, WaitCount, Placed;
    UserRuns(s);
    var t := s.tasks[s.running];
    if t.freq != -1 {
      var s1 := s.(tasks := s.tasks[s.running := t.(counter := WaitCount(t.freq))]);
      Retimed(s, s.running, t.(counter := WaitCount(t.freq)));
      var s2 := s1.(run := Remove(s.run, s.running), rtc := [s.running] + s.rtc);
      BlockKeeps(s1, s2);
      LaunchKeeps(s2);
    }
  }

  /** New timing for one task. */
  lemma Retimed(s: State, t: nat, task: Task)
    requires ListsOk(s) && t < |s.tasks|
    requires task.(remain := 0, freq := 0, counter := 0) == s.tasks[t].(remain := 0, freq := 0, counter := 0)
    requires task.freq == s.tasks[t].freq || task.freq != 0
    requires task.idle || task.remain == s.tasks[t].remain || TimeLeft(task.remain)
    ensures ListsOk(s.(tasks := s.tasks[t := task])) && SameTasks(s.tasks, s.tasks[t := task])
  {
    var tasks := s.tasks[t := task];
    forall u: nat | Live(s.tasks, u) && Live(tasks, u)
      ensures tasks[u].freq != 0 && (tasks[u].idle || TimeLeft(tasks[u].remain))
    {
      assert TaskOk(s.tasks[u], u);
    }
    TimeKeeps(s, tasks);
  }

  lemma TermReadKeeps(s: State, n: int)
    requires ListsOk(s) && s.running in s.run && Guard(s, TermRead(n))
    ensures Quiet(s, TermReadStep(s, n)) && Headed(TermReadStep(s, n))
    ensures TermReadStep(s, n).reader == [s.running] + s.reader
    ensures TermReadStep(s, n).ask == Ask(s, s.running, if n > KEYBOARD_BUF_SIZE then KEYBOARD_BUF_SIZE else n).ask
  {
    hide Launch, TasksOk, Placed;
    UserRuns(s);
    var s1 := Ask(s, s.running, if n > KEYBOARD_BUF_SIZE then KEYBOARD_BUF_SIZE else n);
    var s2 := s1.(run := Remove(s.run, s.running), reader := [s.running] + s.reader);
    BlockKeeps(s, s2);
    LaunchKeeps(s2);
  }

  /** t moves to the head of the run queue from wherever it is. */
  lemma ToHeadKeeps(s: State, t: nat)
    requires ListsOk(s) && Live(s.tasks, t)
    ensures ListsOk(s.(run := [t] + Remove(s.run, t), rtc := Remove(s.rtc, t), reader := Remove(s.reader, t),
                       child := Remove(s.child, t)))
  {
    hide TasksOk, Count, Live, Remove;
    var s' := s.(run := [t] + Remove(s.run, t), rtc := Remove(s.rtc, t), reader := Remove(s.reader, t),
                 child := Remove(s.child, t));
    OnlyThere(s, t);
    RemoveOnce(s.run, t);
    RemoveOnce(s.rtc, t);
    RemoveOnce(s.reader, t);
    RemoveOnce(s.child, t);
    CountFirst(Remove(s.run, t), t);
    CountIn(s.run);
    CountIn(s'.run);
    forall u: nat ensures OnLists(s', u) == OnLists(s, u) {
      if u != t { }
    }
  }

  lemma WakeKeeps(s: State, t: nat)
    requires ListsOk(s) && Live(s.tasks, t) && !s.tasks[t].idle && t !in s.child
    ensures Quiet(s, Wake(s, t)) && Headed(Wake(s, t)) && Wake(s, t).reader == Remove(s.reader, t)
    ensures Wake(s, t).ask == if t in s.reader then Ask(s, t, 0).ask else s.ask
  {
    hide Launch, Refill, ListsOk;
    RemoveOnce(s.child, t);
    var s1 := s.(run := [t] + Remove(s.run, t), rtc := Remove(s.rtc, t), reader := Remove(s.reader, t),
                 child := Remove(s.child, t));
    ToHeadKeeps(s, t);
    RefillIdleFree(s1, t);
    var s2 := Refill(s1, t);
    RefillFields(s, s1, t);
    assert s2 == Refill(s, t).(run := s1.run, rtc := s1.rtc, reader := s1.reader, child := s1.child);
    LaunchKeeps(s2);
    AskKeeps(Launch(s2), t);
    AskSame(s, Launch(s2), t);
  }

  lemma RefillFields(s: State, s1: State, t: nat)
    requires s1.tasks == s.tasks
    ensures Refill(s, t).tasks == Refill(s1, t).tasks && Refill(s1, t) == s1.(tasks := Refill(s1, t).tasks)
    ensures Refill(s, t) == s.(tasks := Refill(s1, t).tasks)
  {
  }

  lemma AskKeeps(s: State, t: nat)
    requires ListsOk(s)
    ensures ListsOk(Ask(s, t, 0)) && Ask(s, t, 0).(ask := s.ask) == s && |Ask(s, t, 0).ask| == |s.ask|
  {
    hide TasksOk, Count;
    assert forall u: nat :: OnLists(Ask(s, t, 0), u) == OnLists(s, u);
  }

  lemma AskSame(s: State, s': State, t: nat)
    requires SameTasks(s.tasks, s'.tasks) && s'.ask == s.ask
    ensures Ask(s, t, 0).ask == Ask(s', t, 0).ask
  {
  }

  lemma OnceDistinct(x: seq<nat>)
    requires forall t: nat :: Count(x, t) <= 1
    ensures Distinct(x)
  {
    forall i, j | 0 <= i < j < |x| ensures x[i] != x[j] {
      assert x == x[..j] + x[j..];
      assert x[..j][i] == x[i] && x[j..][0] == x[j];
      assert Count(x, x[i]) == Count(x[..j], x[i]) + Count(x[j..], x[i]);
      CountIn(x[..j]);
      CountIn(x[j..]);
    }
  }

  lemma VisitKeeps(s: State, t: nat)
    requires ListsOk(s) && s.running in s.run && t in s.rtc
    ensures Quiet(s, RtcVisit(s, t)) && RtcVisit(s, t).reader == s.reader && RtcVisit(s, t).ask == s.ask
    ensures forall u :: u in s.rtc && u != t ==> u in RtcVisit(s, t).rtc
  {
    hide TasksOk, Count, Remove, Refill;
    OnlyThere(s, t);
    var s1 := s.(tasks := CountDown(s.tasks, t));
    Retimed(s, t, s.tasks[t].(counter := s.tasks[t].counter - 1));
    RemoveOnce(s.rtc, t);
    CountIn(s.rtc);
    if Due(s1.tasks, t) {
      UserWaits(s1, t);
      RefillIdleFree(s1, t);
      var s2 := Refill(s1, t);
      var s3 := s2.(rtc := Remove(s1.rtc, t), run := [t] + s1.run);
      CountFirst(s1.run, t);
      CountIn(s3.rtc);
      assert forall u: nat :: OnLists(s3, u) == OnLists(s2, u);
    }
  }

  lemma UserWaits(s: State, t: nat)
    requires ListsOk(s) && t in s.rtc
    ensures Live(s.tasks, t) && !IsIdle(s.tasks, t)
  {
    hide Placed;
    OnlyThere(s, t);
    assert TaskOk(s.tasks[t], t);
  }

  lemma {:induction false} VisitsKeep(s: State, waiting: seq<nat>)
    requires ListsOk(s) && s.running in s.run && Distinct(waiting) && forall t :: t in waiting ==> t in s.rtc
    ensures Quiet(s, RtcVisits(s, waiting))
    ensures RtcVisits(s, waiting).reader == s.reader && RtcVisits(s, waiting).ask == s.ask
    decreases |waiting|
  {
    hide ListsOk, RtcVisit;
    if waiting != [] {
      VisitKeeps(s, waiting[0]);
      VisitsKeep(RtcVisit(s, waiting[0]), waiting[1..]);
    }
  }

  lemma RtcInterruptKeeps(s: State)
    requires ListsOk(s) && s.running in s.run
    ensures Quiet(s, RtcInterruptStep(s)) && (Headed(s) ==> Headed(RtcInterruptStep(s)))
    ensures RtcInterruptStep(s).reader == s.reader && RtcInterruptStep(s).ask == s.ask
  {
    hide Launch, Count, TasksOk, RtcVisits;
    forall t: nat ensures Count(s.rtc, t) <= 1 {
      OnlyThere(s, t);
    }
    OnceDistinct(s.rtc);
    VisitsKeep(s, s.rtc);
    var s1 := RtcVisits(s, s.rtc);
    LaunchKeeps(s1);
    if |s1.rtc| >= |s.rtc| {
      NoneWoken(s, s.rtc);
    }
  }

  /** The wait list only gets shorter, and the run queue is the same if it does not. */
  lemma {:induction false} NoneWoken(s: State, waiting: seq<nat>)
    requires Distinct(waiting) && forall t :: t in waiting ==> t in s.rtc
    ensures |RtcVisits(s, waiting).rtc| <= |s.rtc|
    ensures |RtcVisits(s, waiting).rtc| == |s.rtc| ==>
            RtcVisits(s, waiting).run == s.run && RtcVisits(s, waiting).running == s.running
    decreases |waiting|
  {
    if waiting != [] {
      var s1 := RtcVisit(s, waiting[0]);
      RemoveOnce(s.rtc, waiting[0]);
      CountIn(s.rtc);
      CountIn(s1.rtc);
      RemoveShorter(s.rtc, waiting[0]);
      NoneWoken(s1, waiting[1..]);
    }
  }

  lemma {:induction false} RemoveShorter(x: seq<nat>, t: nat)
    requires t in x
    ensures |Remove(x, t)| == |x| - 1
  {
    if x[0] != t { RemoveShorter(x[1..], t); }
  }

  // ----- Focus and windows

  lemma FocusKeeps(s: State, id: int)
    requires Focused(s.fg, s.focus)
    ensures Focused(Focus(s, id).fg, Focus(s, id).focus) && Focus(s, id).(focus := s.focus) == s
  {
  }

  lemma ActivateKeeps(s: State, k: nat)
    requires Stacked(s.stack, s.slots) && Focused(s.fg, s.focus)
    ensures Stacked(Activate(s, k).stack, s.slots) && Focused(s.fg, Activate(s, k).focus)
    ensures Activate(s, k).(focus := s.focus, stack := s.stack) == s
    ensures s.focus.Some? && k < |s.fg| && s.fg[k] == s.focus ==> Activate(s, k).focus == s.focus
  {
    hide Count, Remove;
    RemoveOnce(s.stack, k);
    CountFirst(Remove(s.stack, k), k);
    CountIn(s.stack);
  }

  /** Scan of another terminal, from the one below k down and around. */
  lemma {:induction false} AnotherFound(fg: seq<Option<nat>>, k: nat, i: nat)
    requires |fg| == TERMINAL_MAX_COUNT && k < TERMINAL_MAX_COUNT && 1 <= i <= TERMINAL_MAX_COUNT
    ensures var r := AnotherFrom(fg, k, i);
            && (r.Some? ==> r.value < |fg| && r.value != k && fg[r.value].Some?)
            && (r.None? ==> forall j :: i <= j < TERMINAL_MAX_COUNT ==> fg[Below(k, j)].None?)
    decreases TERMINAL_MAX_COUNT - i
  {
    if i < TERMINAL_MAX_COUNT {
      assert Below(k, i) != k;
      AnotherFound(fg, k, i + 1);
    }
  }

  function Below(k: nat, j: nat): nat
    requires k < TERMINAL_MAX_COUNT && j < TERMINAL_MAX_COUNT
  {
    (k - j + TERMINAL_MAX_COUNT) % TERMINAL_MAX_COUNT
  }

  /** get_another_term_id: some other terminal with a foreground task, unless there is none. */
  lemma AnotherTerminal(fg: seq<Option<nat>>, k: nat)
    requires |fg| == TERMINAL_MAX_COUNT && k < TERMINAL_MAX_COUNT
    ensures var r := AnotherFrom(fg, k, 1);
            && (r.Some? ==> r.value < |fg| && r.value != k && fg[r.value].Some?)
            && (r.None? <==> forall j :: 0 <= j < TERMINAL_MAX_COUNT && j != k ==> fg[j].None?)
  {
    hide AnotherFrom;
    AnotherFound(fg, k, 1);
    if AnotherFrom(fg, k, 1).None? {
      forall j | 0 <= j < TERMINAL_MAX_COUNT && j != k ensures fg[j].None? {
        var i := (k - j + TERMINAL_MAX_COUNT) % TERMINAL_MAX_COUNT;
        assert Below(k, i) == j;
      }
    }
  }

  // ----- Tasks that start

  /** A live user task that no child runs for is the foreground task of its terminal. */
  lemma Foreground(s: State, chains: seq<seq<nat>>, t: nat)
    requires Tied(s.tasks, s.child, s.slots, s.fg, chains)
    requires Live(s.tasks, t) && !s.tasks[t].kernel && t !in s.child
    ensures s.tasks[t].term.Some? && s.tasks[t].term.value < TERMINAL_MAX_COUNT
    ensures var k := s.tasks[t].term.value;
            chains[k] != [] && chains[k][|chains[k]| - 1] == t && s.fg[k] == Some(t) && s.slots[k]
  {
    assert OnChain(chains, s.tasks[t], t);
    var k := s.tasks[t].term.value;
    assert ChainOk(s.tasks, s.child, k, chains[k]);
    var i: nat :| i < |chains[k]| && chains[k][i] == t;
    assert Link(s.tasks, s.child, k, chains[k], i);
  }

  /** A foreground task is a live user task of its terminal that waits for no child. */
  lemma ForegroundIs(s: State, chains: seq<seq<nat>>, k: nat)
    requires Tied(s.tasks, s.child, s.slots, s.fg, chains) && k < TERMINAL_MAX_COUNT && s.fg[k].Some?
    ensures var t := s.fg[k].value;
            Live(s.tasks, t) && !s.tasks[t].kernel && s.tasks[t].term == Some(k) && t !in s.child
            && s.slots[k] && chains[k] != [] && t == chains[k][|chains[k]| - 1]
  {
    var c := chains[k];
    assert ChainOk(s.tasks, s.child, k, c) && TerminalOk(s.slots, s.fg, chains, k);
    assert Link(s.tasks, s.child, k, c, |c| - 1);
  }

  /** Chains of the other terminals after one task changes that is on none of them. */
  lemma OtherChain(tasks: seq<Task>, tasks': seq<Task>, child: seq<nat>, child': seq<nat>, k: nat, c: seq<nat>)
    requires ChainOk(tasks, child, k, c)
    requires forall u: nat :: u in c ==>
             u < |tasks'| && Live(tasks, u) && SameTask(tasks[u], tasks'[u]) && ((u in child') == (u in child))
    ensures ChainOk(tasks', child', k, c)
  {
    forall i: nat | i < |c| ensures Link(tasks', child', k, c, i) {
      assert Link(tasks, child, k, c, i);
    }
  }

  predicate SameTask(a: Task, b: Task) {
    a.(remain := 0, freq := 0, counter := 0) == b.(remain := 0, freq := 0, counter := 0)
  }

  /** A task that starts in a free slot. */
  lemma StartLists(s: State, t: nat, task: Task)
    requires ListsOk(s) && t < |s.tasks| && !Live(s.tasks, t) && task.valid && TaskOk(task, t)
    ensures ListsOk(s.(tasks := s.tasks[t := task], run := [t] + s.run))
  {
    hide Count, TaskOk;
    CountFirst(s.run, t);
    CountIn(s.run);
    var s' := s.(tasks := s.tasks[t := task], run := [t] + s.run);
    forall u: nat ensures OnLists(s', u) == if Live(s'.tasks, u) then 1 else 0 {
      assert OnLists(s, u) == if Live(s.tasks, u) then 1 else 0;
    }
    forall u: nat | Live(s'.tasks, u) ensures TaskOk(s'.tasks[u], u) {
      if u != t { assert Live(s.tasks, u); }
    }
  }

  /** A change in a slot that is free before and after. */
  lemma FreeSlot(s: State, chains: seq<seq<nat>>, t: nat, task: Task)
    requires Inv(s, chains) && t < |s.tasks| && !Live(s.tasks, t) && !task.valid
    ensures Inv(s.(tasks := s.tasks[t := task]), chains)
  {
    hide Count, TaskOk, Stacked, Focused, TerminalOk;
    var s' := s.(tasks := s.tasks[t := task]);
    forall u: nat ensures OnLists(s', u) == if Live(s'.tasks, u) then 1 else 0 {
      assert OnLists(s, u) == if Live(s.tasks, u) then 1 else 0;
    }
    forall u: nat | Live(s'.tasks, u)
      ensures TaskOk(s'.tasks[u], u) && (!s'.tasks[u].kernel ==> OnChain(chains, s'.tasks[u], u))
    {
      assert Live(s.tasks, u);
    }
    forall k: nat | k < TERMINAL_MAX_COUNT ensures ChainOk(s'.tasks, s'.child, k, chains[k]) {
      OnlyLive(s.tasks, s.child, k, chains[k]);
      OtherChain(s.tasks, s'.tasks, s.child, s.child, k, chains[k]);
    }
  }

  lemma OnlyLive(tasks: seq<Task>, child: seq<nat>, k: nat, c: seq<nat>)
    requires ChainOk(tasks, child, k, c)
    ensures forall u: nat :: u in c ==> Live(tasks, u) && tasks[u].term == Some(k) && !tasks[u].kernel
  {
    forall u: nat | u in c ensures Live(tasks, u) && tasks[u].term == Some(k) && !tasks[u].kernel {
      var i: nat :| i < |c| && c[i] == u;
      assert Link(tasks, child, k, c, i);
    }
  }

  /** While a terminal is free there is room for its window: gui_new_window does not fail after terminal_allocate
      succeeds. */
  lemma WindowFits(stack: seq<nat>, slots: seq<bool>, k: nat)
    requires |slots| == TERMINAL_MAX_COUNT && Stacked(stack, slots) && k < |slots| && !slots[k]
    ensures NewWindow(stack, k).Some?
  {
    hide Count;
    CountIn(stack);
    forall t: nat ensures Count(stack, t) <= 1 {}
    OnceDistinct(stack);
    var room: set<nat> := {0, 1, 2, 3, 4};
    forall t | t in stack ensures t in room - {k} {
      assert Open(slots, t);
    }
    DistinctBound(stack, room - {k});
  }

  lemma ShellTies(tasks: seq<Task>, task: Task, t: nat, child: seq<nat>, slots: seq<bool>, fg: seq<Option<nat>>,
                  k: nat, chains: seq<seq<nat>>)
    requires Tied(tasks, child, slots, fg, chains) && t < |tasks| && !Live(tasks, t) && t !in child
    requires k < TERMINAL_MAX_COUNT && !slots[k]
    requires task.valid && !task.kernel && task.owner && task.parent == None && task.term == Some(k)
    ensures Tied(tasks[t := task], child, slots[k := true], fg[k := Some(t)], chains[k := [t]])
  {
    var tasks', chains' := tasks[t := task], chains[k := [t]];
    assert TerminalOk(slots, fg, chains, k);
    forall j: nat | j < TERMINAL_MAX_COUNT
      ensures ChainOk(tasks', child, j, chains'[j]) && TerminalOk(slots[k := true], fg[k := Some(t)], chains', j)
    {
      assert ChainOk(tasks, child, j, chains[j]) && TerminalOk(slots, fg, chains, j);
      if j != k {
        OnlyLive(tasks, child, j, chains[j]);
        OtherChain(tasks, tasks', child, child, j, chains[j]);
      } else {
        assert Link(tasks', child, k, [t], 0);
      }
    }
    forall u: nat | Live(tasks', u) && !tasks'[u].kernel ensures OnChain(chains', tasks'[u], u) {
      if u != t { assert Live(tasks, u) && OnChain(chains, tasks[u], u); }
    }
  }

  lemma ProgramTies(tasks: seq<Task>, task: Task, t: nat, p: nat, child: seq<nat>, slots: seq<bool>,
                    fg: seq<Option<nat>>, k: nat, chains: seq<seq<nat>>)
    requires Tied(tasks, child, slots, fg, chains) && t < |tasks| && !Live(tasks, t) && t !in child
    requires k < TERMINAL_MAX_COUNT && chains[k] != [] && p == chains[k][|chains[k]| - 1]
    requires task.valid && !task.kernel && !task.owner && task.parent == Some(p) && task.term == Some(k)
    ensures Tied(tasks[t := task], [p] + child, slots, fg[k := Some(t)], chains[k := chains[k] + [t]])
  {
    var tasks', child', c := tasks[t := task], [p] + child, chains[k];
    var chains' := chains[k := c + [t]];
    forall j: nat | j < TERMINAL_MAX_COUNT
      ensures ChainOk(tasks', child', j, chains'[j]) && TerminalOk(slots, fg[k := Some(t)], chains', j)
    {
      assert ChainOk(tasks, child, j, chains[j]) && TerminalOk(slots, fg, chains, j);
      OnlyLive(tasks, child, j, chains[j]);
      if j != k {
        assert p !in chains[j] by { OnlyLive(tasks, child, k, c); }
        OtherChain(tasks, tasks', child, child', j, chains[j]);
      } else {
        forall i: nat | i < |c| + 1 ensures Link(tasks', child', k, c + [t], i) {
          if i < |c| { assert Link(tasks, child, k, c, i); }
        }
      }
    }
    forall u: nat | Live(tasks', u) && !tasks'[u].kernel ensures OnChain(chains', tasks'[u], u) {
      if u != t { assert Live(tasks, u) && OnChain(chains, tasks[u], u); }
    }
  }

  lemma Sizes(s: State, chains: seq<seq<nat>>)
    requires Inv(s, chains)
    ensures |s.tasks| == TASK_MAX_COUNT && |s.slots| == |s.fg| == |s.ask| == |chains| == TERMINAL_MAX_COUNT
  {
  }

  /** A shell that cannot be loaded leaves everything but the contents of a free slot as it was. */
  lemma ShellRolledBack(s: State, chains: seq<seq<nat>>)
    requires Inv(s, chains)
    ensures ShellStep(s, false).(tasks := s.tasks) == s && Inv(ShellStep(s, false), chains)
  {
    hide TasksOk, Placed, Tied, Count;
    Sizes(s, chains);
    var t, k := FirstFree(UsedTasks(s.tasks)), FirstFree(s.slots);
    if t < |s.tasks| {
      var task := s.tasks[t].(valid := false, kernel := false, idle := false, owner := true, parent := None);
      if k < |s.slots| {
        WindowFits(s.stack, s.slots, k);
        RemovePushed(s.stack, k);
        task := task.(term := Some(k));
        assert s.slots[k := true][k := false] == s.slots;
      }
      FreeSlot(s, chains, t, task);
      var s' := ShellStep(s, false);
      assert s'.tasks == s.tasks[t := task];
    }
  }

  lemma {:induction false} RemovePushed(x: seq<nat>, t: nat)
    requires t !in x
    ensures Remove(x + [t], t) == x
  {
    if x != [] {
      assert (x + [t])[1..] == x[1..] + [t];
      RemovePushed(x[1..], t);
    }
  }

  lemma ShellKeeps(s: State, chains: seq<seq<nat>>) returns (chains': seq<seq<nat>>)
    requires Inv(s, chains)
    ensures Inv(ShellStep(s, true), chains')
    ensures Headed(s) ==> Headed(ShellStep(s, true))
    ensures Answered(s) ==> Answered(ShellStep(s, true))
  {
    hide Activate, NewWindow, TasksOk, Placed, Tied, Stacked, Count;
    Sizes(s, chains);
    var t, k := FirstFree(UsedTasks(s.tasks)), FirstFree(s.slots);
    chains' := chains;
    if t < |s.tasks| && k == |s.slots| {
      var task := s.tasks[t].(valid := false, kernel := false, idle := false, owner := true, parent := None);
      FreeSlot(s, chains, t, task);
      var s' := ShellStep(s, true);
      assert s'.tasks == s.tasks[t := task];
      if Answered(s) { SameAsked(s, s'); }
    } else if t < |s.tasks| {
      WindowFits(s.stack, s.slots, k);
      var stack := NewWindow(s.stack, k).value;
      var s1 := OpenTerminal(TakeOwnerSlot(s, t), t, k, stack);
      var s2 := s1.(fg := s1.fg[k := Some(t)], focus := Some(t));
      var s3 := Activate(s2, k);
      chains' := chains[k := [t]];
      WindowOpens(s.stack, s.slots, k);
      assert s2.fg[k] == s2.focus;
      ActivateKeeps(s2, k) by { assert Focused(s2.fg, s2.focus); }
      var task := s1.tasks[t].(remain := SCHED_TASK_TIME, freq := -1);
      StartLists(s, t, task) by { assert TaskOk(task, t) by { NotBoot(s, t); } }
      OnlyThere(s, t);
      ShellTies(s.tasks, task, t, s.child, s.slots, s.fg, k, chains);
      var s' := Start(s3, t);
      assert s'.tasks == s.tasks[t := task] && s'.fg == s.fg[k := Some(t)] && s'.run == [t] + s.run;
      assert Placed(s') by { SameLists(s.(tasks := s.tasks[t := task], run := [t] + s.run), s'); }
      if Answered(s) {
        NoneAsked(s, chains, k);
        forall j: nat | j < TERMINAL_MAX_COUNT ensures Asks(s'.ask, s'.fg, s'.reader, j) {
          assert Asks(s.ask, s.fg, s.reader, j);
        }
      }
    }
  }

  lemma SameAsked(s: State, s': State)
    requires Answered(s) && s' == s.(tasks := s'.tasks)
    ensures Answered(s')
  {
    hide Asks;
  }

  lemma NotBoot(s: State, t: nat)
    requires ListsOk(s) && !Live(s.tasks, t) && t < |s.tasks|
    ensures t > IDLE_TASK
  {
  }

  lemma SameLists(s: State, s': State)
    requires Placed(s) && s'.tasks == s.tasks && s'.run == s.run && s'.rtc == s.rtc && s'.reader == s.reader
    requires s'.child == s.child
    ensures Placed(s')
  {
    hide Count, Live;
    forall t: nat ensures OnLists(s', t) == OnLists(s, t) {}
  }

  /** Nothing is asked for on a free terminal. */
  lemma NoneAsked(s: State, chains: seq<seq<nat>>, k: nat)
    requires Inv(s, chains) && Answered(s) && k < TERMINAL_MAX_COUNT && !s.slots[k]
    ensures s.ask[k] == 0
  {
    hide ListsOk;
    assert TerminalOk(s.slots, s.fg, chains, k) && Asks(s.ask, s.fg, s.reader, k);
  }

  lemma WindowOpens(stack: seq<nat>, slots: seq<bool>, k: nat)
    requires Stacked(stack, slots) && NewWindow(stack, k).Some? && k < |slots| && !slots[k]
    ensures Stacked(NewWindow(stack, k).value, slots[k := true])
  {
    hide Count;
    CountLast(stack, k);
    forall j: nat ensures Count(stack + [k], j) == if Open(slots[k := true], j) then 1 else 0 {
      assert Count(stack, j) == if Open(slots, j) then 1 else 0;
    }
  }

  /** A program that cannot be loaded leaves everything but the contents of a free slot as it was. */
  lemma ProgramRolledBack(s: State, chains: seq<seq<nat>>)
    requires Inv(s, chains) && Guard(s, Program(false))
    ensures ProgramStep(s, false).(tasks := s.tasks) == s && Inv(ProgramStep(s, false), chains)
  {
    hide TasksOk, Placed, Tied, Count;
    Sizes(s, chains);
    UserRuns(s);
    Foreground(s, chains, s.running);
    var t, k := FirstFree(UsedTasks(s.tasks)), s.tasks[s.running].term.value;
    if t < |s.tasks| {
      var task := s.tasks[t].(valid := false, kernel := false, idle := false, owner := false,
                              parent := Some(s.running), term := Some(k));
      FreeSlot(s, chains, t, task);
      assert ProgramStep(s, false).tasks == s.tasks[t := task];
    }
  }

  lemma ProgramKeeps(s: State, chains: seq<seq<nat>>) returns (chains': seq<seq<nat>>)
    requires Inv(s, chains) && Guard(s, Program(true))
    ensures Inv(ProgramStep(s, true), chains')
    ensures Headed(s) ==> Headed(ProgramStep(s, true))
    ensures Answered(s) ==> Answered(ProgramStep(s, true))
  {
    hide Activate, TasksOk, Placed, Tied, Stacked, Count, Remove;
    Sizes(s, chains);
    UserRuns(s);
    Foreground(s, chains, s.running);
    var p := s.running;
    var t, k := FirstFree(UsedTasks(s.tasks)), s.tasks[p].term.value;
    chains' := chains;
    if t < |s.tasks| {
      var s1 := TakeSlot(s, t, k);
      var s2 := s1.(fg := s1.fg[k := Some(t)], focus := Some(t));
      var s3 := Activate(s2, k);
      chains' := chains[k := chains[k] + [t]];
      assert s2.fg[k] == s2.focus;
      ActivateKeeps(s2, k);
      var s4 := Start(s3, t);
      var task := s1.tasks[t].(remain := SCHED_TASK_TIME, freq := -1);
      NotBoot(s, t);
      StartLists(s, t, task);
      OnlyThere(s, t);
      ProgramTies(s.tasks, task, t, p, s.child, s.slots, s.fg, k, chains);
      assert s4.tasks == s.tasks[t := task];
      assert Placed(s4) by { SameLists(s.(tasks := s.tasks[t := task], run := [t] + s.run), s4); }
      var s' := s4.(run := Remove(s4.run, p), child := [p] + s.child);
      assert s' == ProgramStep(s, true);
      ParentBlocks(s4, p);
      if Answered(s) {
        ForegroundsDiffer(s, chains);
        AnsweredAs(s, s', k);
      }
    }
  }

  /** A task other than the running one leaves the run queue to wait for its child. */
  lemma ParentBlocks(s: State, p: nat)
    requires ListsOk(s) && s.running in s.run && p in s.run && p != s.running && p > IDLE_TASK
    ensures ListsOk(s.(run := Remove(s.run, p), child := [p] + s.child)) && s.running in Remove(s.run, p)
    ensures Headed(s) ==> Headed(s.(run := Remove(s.run, p)))
  {
    hide TasksOk, Live, Count;
    RemoveOnce(s.run, p);
    CountFirst(s.child, p);
    CountIn(s.run);
    CountIn(Remove(s.run, p));
    var s' := s.(run := Remove(s.run, p), child := [p] + s.child);
    assert forall t: nat :: OnLists(s', t) == OnLists(s, t);
  }

  /** A new foreground task on a terminal whose last one was not waiting for input. */
  lemma AnsweredAs(s: State, s': State, k: nat)
    requires Answered(s) && k < TERMINAL_MAX_COUNT && (s.fg[k].Some? ==> s.fg[k].value !in s.reader)
    requires s'.ask == s.ask && |s'.fg| == |s.fg|
    requires forall j :: 0 <= j < TERMINAL_MAX_COUNT && j != k ==> s'.fg[j] == s.fg[j]
    requires forall u: nat :: u in s.reader && Some(u) != s.fg[k] ==> u in s'.reader
    requires forall i, j :: 0 <= i < j < TERMINAL_MAX_COUNT && s.fg[i].Some? ==> s.fg[i] != s.fg[j]
    ensures Answered(s')
  {
    forall j: nat | j < TERMINAL_MAX_COUNT ensures Asks(s'.ask, s'.fg, s'.reader, j) {
      assert Asks(s.ask, s.fg, s.reader, j);
    }
  }

  // ----- Tasks that end

  lemma GoneLists(s: State, t: nat, task: Task)
    requires ListsOk(s) && Live(s.tasks, t) && t > IDLE_TASK && !task.valid
    ensures ListsOk(s.(tasks := s.tasks[t := task], run := Remove(s.run, t), rtc := Remove(s.rtc, t),
                       reader := Remove(s.reader, t), child := Remove(s.child, t)))
  {
    hide Count, TaskOk, Remove;
    var s' := s.(tasks := s.tasks[t := task], run := Remove(s.run, t), rtc := Remove(s.rtc, t),
                 reader := Remove(s.reader, t), child := Remove(s.child, t));
    RemoveOnce(s.run, t);
    RemoveOnce(s.rtc, t);
    RemoveOnce(s.reader, t);
    RemoveOnce(s.child, t);
    OnlyThere(s, t);
    CountIn(s.run);
    CountIn(s.rtc);
    CountIn(s.reader);
    CountIn(s.child);
    CountIn(s'.run);
    forall u: nat ensures OnLists(s', u) == if Live(s'.tasks, u) then 1 else 0 {
      assert OnLists(s, u) == if Live(s.tasks, u) then 1 else 0;
    }
    forall u: nat | Live(s'.tasks, u) ensures TaskOk(s'.tasks[u], u) {
      assert Live(s.tasks, u);
    }
  }

  /** The parent comes back to the head of the run queue with full time. */
  lemma BackLists(s: State, p: nat)
    requires ListsOk(s) && p in s.child
    ensures ListsOk(Refill(s, p).(child := Remove(s.child, p), run := [p] + s.run))
    ensures SameTasks(s.tasks, Refill(s, p).tasks)
  {
    hide TasksOk, Placed, Count, Remove, Refill;
    OnlyThere(s, p);
    RemoveOnce(s.run, p);
    RemoveOnce(s.rtc, p);
    RemoveOnce(s.reader, p);
    var s1 := Refill(s, p);
    UserParent(s, p);
    RefillIdleFree(s, p);
    ToHeadKeeps(s1, p);
    var s2 := s1.(child := Remove(s.child, p), run := [p] + s.run);
    assert s2 == s1.(run := [p] + Remove(s1.run, p), rtc := Remove(s1.rtc, p), reader := Remove(s1.reader, p),
                     child := Remove(s1.child, p));
  }

  lemma UserParent(s: State, p: nat)
    requires ListsOk(s) && p in s.child
    ensures Live(s.tasks, p) && !IsIdle(s.tasks, p)
  {
    hide Placed;
    OnlyThere(s, p);
    assert TaskOk(s.tasks[p], p);
  }

  /** A terminal closed with its owner, the only task on it. */
  lemma OwnerTies(tasks: seq<Task>, tasks': seq<Task>, t: nat, child: seq<nat>, slots: seq<bool>,
                  fg: seq<Option<nat>>, k: nat, chains: seq<seq<nat>>)
    requires Tied(tasks, child, slots, fg, chains) && k < TERMINAL_MAX_COUNT && chains[k] == [t]
    requires GoneTask(tasks, tasks', t)
    ensures Tied(tasks', child, slots[k := false], fg[k := None], chains[k := []])
  {
    var chains' := chains[k := []];
    forall j: nat | j < TERMINAL_MAX_COUNT
      ensures ChainOk(tasks', child, j, chains'[j]) && TerminalOk(slots[k := false], fg[k := None], chains', j)
    {
      assert ChainOk(tasks, child, j, chains[j]) && TerminalOk(slots, fg, chains, j)
             && ChainOk(tasks, child, k, chains[k]);
      if j != k {
        OnlyLive(tasks, child, j, chains[j]);
        OnlyLive(tasks, child, k, chains[k]);
        OtherChain(tasks, tasks', child, child, j, chains[j]);
      }
    }
    forall u: nat | Live(tasks', u) && !tasks'[u].kernel ensures OnChain(chains', tasks'[u], u) {
      assert SameTask(tasks[u], tasks'[u]);
      assert Live(tasks, u) && OnChain(chains, tasks[u], u);
    }
  }

  /** t is gone; only timing has changed in the other tasks. */
  ghost predicate GoneTask(tasks: seq<Task>, tasks': seq<Task>, t: nat) {
    && |tasks| == |tasks'| && t < |tasks'| && !tasks'[t].valid
    && forall u: nat :: u < |tasks| && u != t ==> SameTask(tasks[u], tasks'[u])
  }

  /** A terminal goes back to the parent of its foreground task. */
  lemma ParentTies(tasks: seq<Task>, tasks': seq<Task>, t: nat, p: nat, child: seq<nat>, child': seq<nat>,
                   slots: seq<bool>, fg: seq<Option<nat>>, k: nat, chains: seq<seq<nat>>)
    requires Tied(tasks, child, slots, fg, chains) && k < TERMINAL_MAX_COUNT
    requires |chains[k]| >= 2 && chains[k][|chains[k]| - 1] == t && chains[k][|chains[k]| - 2] == p
    requires GoneTask(tasks, tasks', t)
    requires forall u: nat :: u in child' <==> u in child && u != p
    ensures Tied(tasks', child', slots, fg[k := Some(p)], chains[k := chains[k][..|chains[k]| - 1]])
  {
    var c := chains[k];
    var c' := c[..|c| - 1];
    var chains' := chains[k := c'];
    assert ChainOk(tasks, child, k, c);
    OnlyLive(tasks, child, k, c);
    forall j: nat | j < TERMINAL_MAX_COUNT
      ensures ChainOk(tasks', child', j, chains'[j]) && TerminalOk(slots, fg[k := Some(p)], chains', j)
    {
      assert ChainOk(tasks, child, j, chains[j]) && TerminalOk(slots, fg, chains, j);
      if j != k {
        OnlyLive(tasks, child, j, chains[j]);
        assert p !in chains[j] && t !in chains[j];
        OtherChain(tasks, tasks', child, child', j, chains[j]);
      } else {
        forall i: nat | i < |c'| ensures Link(tasks', child', k, c', i) {
          assert Link(tasks, child, k, c, i);
          assert c[i] != t && SameTask(tasks[c[i]], tasks'[c[i]]);
        }
      }
    }
    forall u: nat | Live(tasks', u) && !tasks'[u].kernel ensures OnChain(chains', tasks'[u], u) {
      assert SameTask(tasks[u], tasks'[u]);
      assert Live(tasks, u) && OnChain(chains, tasks[u], u);
      if tasks[u].term == Some(k) {
        var i: nat :| i < |c| && c[i] == u;
        assert c'[i] == u;
      }
    }
  }

  /** Foreground tasks of different terminals are different. */
  lemma ForegroundsDiffer(s: State, chains: seq<seq<nat>>)
    requires Tied(s.tasks, s.child, s.slots, s.fg, chains)
    ensures forall i, j :: 0 <= i < j < TERMINAL_MAX_COUNT && s.fg[i].Some? ==> s.fg[i] != s.fg[j]
  {
    forall i, j | 0 <= i < j < TERMINAL_MAX_COUNT && s.fg[i].Some? ensures s.fg[i] != s.fg[j] {
      ForegroundIs(s, chains, i);
      if s.fg[j].Some? { ForegroundIs(s, chains, j); }
    }
  }

  /** The parent of the last task of a chain is the one before it. */
  lemma ParentIs(s: State, chains: seq<seq<nat>>, k: nat)
    requires Tied(s.tasks, s.child, s.slots, s.fg, chains) && k < TERMINAL_MAX_COUNT && chains[k] != []
    ensures var c := chains[k]; var t := c[|c| - 1];
            Live(s.tasks, t) && s.tasks[t].owner == (|c| == 1)
            && s.tasks[t].parent == (if |c| == 1 then None else Some(c[|c| - 2]))
            && (|c| >= 2 ==> c[|c| - 2] in s.child && c[|c| - 2] != t)
  {
    var c := chains[k];
    assert ChainOk(s.tasks, s.child, k, c);
    assert Link(s.tasks, s.child, k, c, |c| - 1);
    if |c| >= 2 { assert Link(s.tasks, s.child, k, c, |c| - 2); }
  }

  lemma TearDownLists(s: State, t: nat)
    requires ListsOk(s) && Tearable(s, t) && Live(s.tasks, t) && t > IDLE_TASK && t !in s.child
    requires s.tasks[t].parent.Some? ==> s.tasks[t].parent.value in s.child
    ensures ListsOk(TearDown(s, t)) && GoneTask(s.tasks, TearDown(s, t).tasks, t)
    ensures TearDown(s, t).reader == Remove(s.reader, t)
    ensures TearDown(s, t).child
            == if s.tasks[t].parent.Some? then Remove(s.child, s.tasks[t].parent.value) else s.child
    ensures TearDown(s, t).run == (if s.tasks[t].parent.Some? then [s.tasks[t].parent.value] else []) + Remove(s.run, t)
  {
    hide TasksOk, Placed, Count, Remove, FocusOn, AnotherFrom;
    var parent, gone := s.tasks[t].parent, s.tasks[t].(valid := false);
    var s' := TearDown(s, t);
    var s1 := s.(run := Remove(s.run, t), rtc := Remove(s.rtc, t), reader := Remove(s.reader, t),
                 child := Remove(s.child, t));
    RemoveOnce(s.child, t);
    GoneLists(s, t, gone);
    var s2 := s1.(tasks := s.tasks[t := gone]);
    if parent.Some? {
      var p := parent.value;
      BackLists(s2, p);
      var s3 := Refill(s2, p).(child := Remove(s2.child, p), run := [p] + s2.run);
      assert Live(s.tasks, p) by { OnlyThere(s, p); }
      assert s'.tasks == s3.tasks by { FreeRefill(s, t, p); }
      SameLists(s3, s');
      assert p != t;
    } else {
      assert s'.tasks == s2.tasks;
      SameLists(s2, s');
    }
  }

  lemma FreeRefill(s: State, t: nat, p: nat)
    requires t < |s.tasks| && p < |s.tasks| && p != t && Tearable(s, t) && s.tasks[t].parent == Some(p)
    ensures TearDown(s, t).tasks == Refill(s.(tasks := s.tasks[t := s.tasks[t].(valid := false)]), p).tasks
  {
    hide FocusOn, AnotherFrom, Remove;
  }
}
