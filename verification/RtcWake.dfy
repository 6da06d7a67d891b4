/** Waiting for the real-time clock: what one interrupt does to the wait list, and after how many a read returns. */
module RtcWake {
  import opened Common
  import opened Kernel
  import opened KernelInvariant
  import KernelRuns

  // ----- One interrupt

  predicate LastCount(tasks: seq<Task>, t: nat) {
    t < |tasks| && tasks[t].counter == 1
  }

  /** The waiting tasks whose counter reaches 0, in list order. */
  function Woken(tasks: seq<Task>, waiting: seq<nat>): seq<nat> {
    if waiting == [] then []
    else (if LastCount(tasks, waiting[0]) then [waiting[0]] else []) + Woken(tasks, waiting[1..])
  }

  /** The others, in list order. */
  function Still(tasks: seq<Task>, waiting: seq<nat>): seq<nat> {
    if waiting == [] then []
    else (if LastCount(tasks, waiting[0]) then [] else [waiting[0]]) + Still(tasks, waiting[1..])
  }

  function Reversed(x: seq<nat>): seq<nat> {
    if x == [] then [] else Reversed(x[1..]) + [x[0]]
  }

  /** A waiting task after one interrupt. */
  function Counted(task: Task): Task {
    if task.counter == 1 then task.(counter := 0, remain := SCHED_TASK_TIME) else task.(counter := task.counter - 1)
  }

  ghost predicate CountedTasks(tasks: seq<Task>, tasks': seq<Task>, waiting: seq<nat>) {
    && |tasks'| == |tasks|
    && forall t: nat :: t < |tasks| ==> tasks'[t] == if t in waiting then Counted(tasks[t]) else tasks[t]
  }

  lemma {:induction false} RemoveMiddle(x: seq<nat>, t: nat, y: seq<nat>)
    requires t !in x
    ensures Remove(x + [t] + y, t) == x + y
  {
    if x == [] {
      assert x + [t] + y == [t] + y;
    } else {
      assert (x + [t] + y)[1..] == x[1..] + [t] + y;
      RemoveMiddle(x[1..], t, y);
    }
  }

  lemma Visit(s: State, done: seq<nat>, t: nat, rest: seq<nat>)
    requires s.rtc == done + [t] + rest && Distinct(s.rtc) && t < |s.tasks|
    ensures var s' := RtcVisit(s, t);
            && CountedTasks(s.tasks, s'.tasks, [t])
            && s'.(tasks := s.tasks, run := s.run, rtc := s.rtc) == s
            && s'.run == (if LastCount(s.tasks, t) then [t] else []) + s.run
            && s'.rtc == (if LastCount(s.tasks, t) then done else done + [t]) + rest
  {
    hide Distinct, Remove;
    assert t !in done by { DistinctAt(done, t, rest); }
    RemoveMiddle(done, t, rest);
  }

  lemma DistinctAt(x: seq<nat>, t: nat, y: seq<nat>)
    requires Distinct(x + [t] + y)
    ensures t !in x && t !in y && Distinct(x + y) && Distinct(y)
  {
    var z := x + [t] + y;
    assert z[|x|] == t;
    assert forall i :: 0 <= i < |x| ==> z[i] == x[i];
    assert forall i :: 0 <= i < |y| ==> z[|x| + 1 + i] == y[i];
  }

  lemma {:induction false} Visits(s: State, done: seq<nat>, waiting: seq<nat>)
    requires s.rtc == done + waiting && Distinct(s.rtc) && forall t :: t in waiting ==> t < |s.tasks|
    ensures var s' := RtcVisits(s, waiting);
            && CountedTasks(s.tasks, s'.tasks, waiting)
            && s'.(tasks := s.tasks, run := s.run, rtc := s.rtc) == s
            && s'.run == Reversed(Woken(s.tasks, waiting)) + s.run
            && s'.rtc == done + Still(s.tasks, waiting)
    decreases |waiting|
  {
    hide RtcVisit, Distinct, LastCount, Counted, RtcVisits, Woken, Still, Reversed;
    Unfold(s, waiting);
    if waiting == [] {
      assert done + [] == done && [] + s.run == s.run;
    } else {
      var t, rest := waiting[0], waiting[1..];
      assert s.rtc == done + [t] + rest && t in waiting;
      DistinctAt(done, t, rest);
      Visit(s, done, t, rest);
      var s1 := RtcVisit(s, t);
      var done' := if LastCount(s.tasks, t) then done else done + [t];
      assert done' + rest == if LastCount(s.tasks, t) then done + rest else s.rtc;
      assert forall u :: u in rest ==> u in waiting;
      Visits(s1, done', rest);
      SameCounts(s.tasks, s1.tasks, rest);
      var s' := RtcVisits(s1, rest);
      assert RtcVisits(s, waiting) == s';
      ReversedFirst(if LastCount(s.tasks, t) then [t] else [], Woken(s.tasks, rest), s.run);
      assert s'.rtc == done + Still(s.tasks, waiting);
    }
  }

  lemma Unfold(s: State, waiting: seq<nat>)
    ensures waiting == [] ==>
            RtcVisits(s, waiting) == s && Reversed(Woken(s.tasks, waiting)) == [] && Still(s.tasks, waiting) == []
    ensures waiting != [] ==> var t, rest := waiting[0], waiting[1..];
            && RtcVisits(s, waiting) == RtcVisits(RtcVisit(s, t), rest)
            && Woken(s.tasks, waiting) == (if LastCount(s.tasks, t) then [t] else []) + Woken(s.tasks, rest)
            && Still(s.tasks, waiting) == (if LastCount(s.tasks, t) then [] else [t]) + Still(s.tasks, rest)
  {
    hide RtcVisit, LastCount;
  }

  lemma ReversedFirst(first: seq<nat>, rest: seq<nat>, run: seq<nat>)
    requires |first| <= 1
    ensures Reversed(first + rest) + run == Reversed(rest) + (first + run)
  {
    if first == [] {
      assert first + rest == rest && first + run == run;
    } else {
      assert (first + rest)[1..] == rest;
    }
  }

  lemma {:induction false} SameCounts(tasks: seq<Task>, tasks': seq<Task>, waiting: seq<nat>)
    requires |tasks| == |tasks'| && forall t :: t in waiting && t < |tasks| ==> tasks'[t] == tasks[t]
    ensures Woken(tasks', waiting) == Woken(tasks, waiting) && Still(tasks', waiting) == Still(tasks, waiting)
  {
    if waiting != [] { SameCounts(tasks, tasks', waiting[1..]); }
  }

  /** An interrupt visits every waiting task once, removes exactly those whose counter reaches 0, keeps the order of the
      rest and puts the others, in reverse order, at the head of the run queue; only then is the new head launched. */
  lemma InterruptIs(s: State)
    requires ListsOk(s)
    ensures var s' := RtcInterruptStep(s); var woken := Woken(s.tasks, s.rtc); var run := Reversed(woken) + s.run;
            && CountedTasks(s.tasks, s'.tasks, s.rtc) && s'.rtc == Still(s.tasks, s.rtc)
            && (woken == [] ==> s'.run == s.run && s'.running == s.running)
            && (woken != [] ==> s'.run == run && s'.running == woken[|woken| - 1])
            && s'.(tasks := s.tasks, run := s.run, rtc := s.rtc, running := s.running) == s
  {
    hide Placed, TasksOk, RtcVisits, Woken, Still, Reversed, Counted, TaskOk;
    forall t: nat ensures Count(s.rtc, t) <= 1 { OnlyThere(s, t); }
    OnceDistinct(s.rtc);
    forall t: nat | t in s.rtc ensures Live(s.tasks, t) && !s.tasks[t].idle { OnlyThere(s, t); UserWaits(s, t); }
    Visits(s, [], s.rtc);
    var s1 := RtcVisits(s, s.rtc);
    assert s1.rtc == Still(s.tasks, s.rtc);
    Split(s.tasks, s.rtc);
    var woken := Woken(s.tasks, s.rtc);
    if woken != [] {
      ReversedHead(woken);
      var h := woken[|woken| - 1];
      assert h in woken;
      NotIdle(s, s1.tasks, h);
    } else {
      NoneReversed();
      assert [] + s.run == s.run;
    }
  }

  lemma NotIdle(s: State, tasks: seq<Task>, h: nat)
    requires CountedTasks(s.tasks, tasks, s.rtc) && h < |s.tasks| && !s.tasks[h].idle
    ensures !IsIdle(tasks, h)
  {
  }

  lemma NoneReversed()
    ensures Reversed([]) == []
  {
  }

  lemma {:induction false} ReversedHead(x: seq<nat>)
    requires x != []
    ensures Reversed(x) != [] && Reversed(x)[0] == x[|x| - 1]
  {
    if |x| > 1 { ReversedHead(x[1..]); } else { assert Reversed(x[1..]) == []; }
  }

  lemma {:induction false} Split(tasks: seq<Task>, waiting: seq<nat>)
    ensures |Woken(tasks, waiting)| + |Still(tasks, waiting)| == |waiting|
    ensures forall t: nat :: t in Woken(tasks, waiting) <==> t in waiting && LastCount(tasks, t)
    ensures forall t: nat :: t in Still(tasks, waiting) <==> t in waiting && !LastCount(tasks, t)
  {
    if waiting != [] { Split(tasks, waiting[1..]); }
  }

  // ----- From a read to its return

  /** t waits for the clock with the counter at c. */
  predicate Waits(s: State, t: nat, c: int) {
    t in s.rtc && t < |s.tasks| && s.tasks[t].counter == c
  }

  /** t is on no list but the wait list. */
  lemma Elsewhere(s: State, t: nat)
    requires ListsOk(s) && t in s.rtc
    ensures Live(s.tasks, t) && t > IDLE_TASK && t !in s.run && t !in s.reader && t !in s.child
  {
    hide TasksOk, TaskOk, Count, Placed;
    OnlyThere(s, t);
  }

  lemma RtcStill(s: State, u: nat, t: nat)
    requires t in s.rtc && u != t
    ensures t in Remove(s.rtc, u)
  {
    hide Count, Remove;
    RemoveOnce(s.rtc, u);
    CountIn(s.rtc);
    CountIn(Remove(s.rtc, u));
  }

  lemma LaunchTiming(s: State)
    ensures Launch(s).tasks == s.tasks && Launch(s).rtc == s.rtc
  {
  }

  lemma RefillTiming(s: State, u: nat, t: nat)
    requires t < |s.tasks|
    ensures |Refill(s, u).tasks| == |s.tasks| && Refill(s, u).tasks[t].counter == s.tasks[t].counter
    ensures Refill(s, u).rtc == s.rtc
  {
  }

  lemma ActivateTiming(s: State, k: nat)
    ensures Activate(s, k).tasks == s.tasks && Activate(s, k).rtc == s.rtc
  {
  }

  lemma AskTiming(s: State, t: nat, n: int)
    ensures Ask(s, t, n).tasks == s.tasks && Ask(s, t, n).rtc == s.rtc
  {
  }

  lemma WakeWaits(s: State, u: nat, t: nat, c: int)
    requires Waits(s, t, c) && u != t
    ensures Waits(Wake(s, u), t, c)
  {
    hide Launch, Refill, Ask, Remove;
    RtcStill(s, u, t);
    RefillTiming(s, u, t);
    var s1 := Refill(s, u).(run := [u] + Remove(s.run, u), rtc := Remove(s.rtc, u),
                            reader := Remove(s.reader, u), child := Remove(s.child, u));
    LaunchTiming(s1);
    AskTiming(Launch(s1), u, 0);
  }

  lemma ShellWaits(s: State, loads: bool, t: nat, c: int)
    requires Waits(s, t, c) && s.tasks[t].valid && |s.fg| == |s.slots|
    ensures Waits(ShellStep(s, loads), t, c)
  {
    hide Activate, NewWindow, Remove;
    var u, k := FirstFree(UsedTasks(s.tasks)), FirstFree(s.slots);
    if u < |s.tasks| && k < |s.slots| && NewWindow(s.stack, k).Some? {
      assert u != t;
      var s1 := OpenTerminal(TakeOwnerSlot(s, u), u, k, NewWindow(s.stack, k).value);
      ActivateTiming(s1.(fg := s1.fg[k := Some(u)], focus := Some(u)), k);
    }
  }

  lemma ProgramWaits(s: State, loads: bool, t: nat, c: int)
    requires Waits(s, t, c) && s.tasks[t].valid && s.running < |s.tasks|
    ensures Waits(ProgramStep(s, loads), t, c)
  {
    hide Activate, Remove;
    var u, term := FirstFree(UsedTasks(s.tasks)), s.tasks[s.running].term;
    if u < |s.tasks| && term.Some? && term.value < |s.fg| {
      assert u != t;
      var s1 := TakeSlot(s, u, term.value);
      ActivateTiming(s1.(fg := s1.fg[term.value := Some(u)], focus := Some(u)), term.value);
    }
  }

  lemma TearDownWaits(s: State, u: nat, t: nat, c: int)
    requires Waits(s, t, c) && Tearable(s, u) && t != u
    ensures Waits(TearDown(s, u), t, c)
  {
    hide Remove, AnotherFrom, FocusOn, Launch, Refill, Untie, Unlist;
    RtcStill(s, u, t);
    UnlistTiming(s, u, t);
    UntieTiming(Unlist(s, u), u);
  }

  lemma HaltWaits(s: State, t: nat, c: int)
    requires Waits(s, t, c) && Tearable(s, s.running) && t != s.running
    ensures Waits(HaltStep(s), t, c)
  {
    hide TearDown, Launch;
    TearDownWaits(s, s.running, t, c);
    LaunchTiming(TearDown(s, s.running));
  }

  lemma UnlistTiming(s: State, u: nat, t: nat)
    requires u < |s.tasks| && t < |s.tasks|
    ensures |Unlist(s, u).tasks| == |s.tasks| && Unlist(s, u).tasks[t].counter == s.tasks[t].counter
    ensures Unlist(s, u).rtc == Remove(s.rtc, u)
    ensures Tearable(s, u) ==> Tearable(Unlist(s, u), u)
  {
    hide Remove;
  }

  lemma UntieTiming(s: State, u: nat)
    requires Tearable(s, u)
    ensures Untie(s, u).tasks == s.tasks && Untie(s, u).rtc == s.rtc
  {
    hide Remove, AnotherFrom, FocusOn;
    AnotherTerminal(s.fg[s.tasks[u].term.value := None], s.tasks[u].term.value);
  }

  /** The event does not end the wait of t otherwise: t's window is not closed, and no key wakes t. */
  predicate Undisturbed(s: State, e: Event, t: nat) {
    match e
    case CloseOther => TopTask(s) != Some(t)
    case KeyWake => s.focus != Some(t)
    case KeyElsewhere(k) => k < |s.fg| ==> s.fg[k] != Some(t)
    case _ => true
  }

  /** Nothing but the clock changes the counter, and of the other events exactly these end the wait. */
  lemma OtherStepWaits(s: State, e: Event, chains: seq<seq<nat>>, t: nat, c: int)
    requires Inv(s, chains) && Enabled(s, e) && !e.RtcInterrupt? && Waits(s, t, c)
    ensures Undisturbed(s, e, t) ==> Waits(Step(s, e), t, c)
    ensures !Undisturbed(s, e, t) ==> t !in Step(s, e).rtc
  {
    hide Inv, Launch, Refill, RunningToLast, Activate, Remove, Wake, ShellStep, ProgramStep, HaltStep, TearDown, Ask,
         WaitCount, IsPowerOfTwo, Focus;
    KernelRuns.InvParts(s, chains);
    Elsewhere(s, t);
    match e
    case Tick => QueueWaits(s, t, c);
    case Yield => QueueWaits(s, t, c);
    case RtcRead => if s.tasks[s.running].freq != -1 { ReadWaits(s, t, c); }
    case TermRead(n) => {
      var m := if n > KEYBOARD_BUF_SIZE then KEYBOARD_BUF_SIZE else n;
      AskTiming(s, s.running, m);
      LaunchTiming(Ask(s, s.running, m).(run := Remove(s.run, s.running), reader := [s.running] + s.reader));
    }
    case ReadNow => AskTiming(s, s.running, 0);
    case KeyWake => WakeWaitsOrNot(s, s.focus.value, t, c);
    case KeyElsewhere(k) => {
      KernelRuns.FocusFields(s, k);
      WakeWaitsOrNot(Focus(s, k), s.fg[k].value, t, c);
    }
    case Shell(loads) => ShellWaits(s, loads, t, c);
    case Program(loads) => ProgramWaits(s, loads, t, c);
    case Halt => HaltWaits(s, t, c);
    case CloseOther => CloseWaitsOrNot(s, chains, t, c);
    case ChangeFocus(id) => KernelRuns.FocusFields(s, id);
    case PressWindow(i) => if i < |s.stack| && i != 0 { ActivateTiming(s, s.stack[i]); }
    case _ =>
  }

  lemma WakeWaitsOrNot(s: State, u: nat, t: nat, c: int)
    requires ListsOk(s) && Waits(s, t, c)
    ensures if u == t then t !in Wake(s, u).rtc else Waits(Wake(s, u), t, c)
  {
    hide Launch, Refill, Ask, Remove, ListsOk;
    if u != t { WakeWaits(s, u, t, c); } else { WakeLeaves(s, t); }
  }

  lemma WakeLeaves(s: State, t: nat)
    requires ListsOk(s)
    ensures t !in Wake(s, t).rtc
  {
    hide Launch, Refill, Ask, Remove, TasksOk, Placed;
    Once(s, t);
    RefillRtc(s, t);
    var s1 := Refill(s, t).(run := [t] + Remove(s.run, t), rtc := Remove(s.rtc, t),
                            reader := Remove(s.reader, t), child := Remove(s.child, t));
    LaunchTiming(s1);
    AskTiming(Launch(s1), t, 0);
  }

  lemma RefillRtc(s: State, t: nat)
    ensures Refill(s, t).rtc == s.rtc
  {
  }

  /** t is on the wait list at most once. */
  lemma Once(s: State, t: nat)
    requires ListsOk(s)
    ensures t !in Remove(s.rtc, t)
  {
    hide TasksOk, Placed, Count, Remove;
    OnlyThere(s, t);
    RemoveOnce(s.rtc, t);
    CountIn(s.rtc);
    CountIn(Remove(s.rtc, t));
  }

  lemma CloseWaitsOrNot(s: State, chains: seq<seq<nat>>, t: nat, c: int)
    requires Inv(s, chains) && Guard(s, CloseOther) && Waits(s, t, c)
    ensures var u := TopTask(s).value;
            if u == t then t !in TearDown(s, u).rtc else Waits(TearDown(s, u), t, c)
  {
    hide TearDown, ListsOk, Tied, Stacked, Focused, Waits, Untie, Unlist, Remove;
    var u := TopTask(s).value;
    if u != t {
      TearDownWaits(s, u, t, c);
    } else {
      Once(s, t);
      TearDownRtc(s, t);
    }
  }

  lemma TearDownRtc(s: State, u: nat)
    requires Tearable(s, u)
    ensures TearDown(s, u).rtc == Remove(s.rtc, u)
  {
    hide Remove, Untie, Unlist;
    UnlistTiming(s, u, u);
    UntieTiming(Unlist(s, u), u);
  }

  /** As long as whoever is asked for waits for the key, no key wakes a task that waits for the clock. */
  lemma KeysLeaveClock(s: State, chains: seq<seq<nat>>, t: nat)
    requires Inv(s, chains) && Answered(s) && Guard(s, KeyWake) && t in s.rtc
    ensures Undisturbed(s, KeyWake, t)
  {
    hide Inv, Answered;
    KernelRuns.KeyWakesReader(s, chains);
    KernelRuns.InvParts(s, chains);
    Elsewhere(s, t);
  }

  lemma QueueWaits(s: State, t: nat, c: int)
    requires Waits(s, t, c) && s.running < |s.tasks| && t != s.running
    ensures Waits(TickStep(s), t, c) && Waits(YieldStep(s), t, c)
  {
    hide Launch, Remove;
    RefillTiming(s, s.running, t);
    LaunchTiming(RunningToLast(s));
    LaunchTiming(RunningToLast(Refill(s, s.running)));
  }

  lemma ReadWaits(s: State, t: nat, c: int)
    requires Waits(s, t, c) && s.running < |s.tasks| && t != s.running && s.tasks[s.running].freq != 0
    ensures Waits(RtcReadStep(s), t, c)
  {
    hide Launch, Remove, WaitCount;
    var task := s.tasks[s.running];
    LaunchTiming(s.(tasks := s.tasks[s.running := task.(counter := WaitCount(task.freq))],
                    run := Remove(s.run, s.running), rtc := [s.running] + s.rtc));
  }

  function Interrupts(events: seq<Event>): nat {
    if events == [] then 0 else (if events[0].RtcInterrupt? then 1 else 0) + Interrupts(events[1..])
  }

  /** t is runnable, with full time. */
  predicate Awake(s: State, t: nat) {
    t in s.run && t !in s.rtc && t < |s.tasks| && s.tasks[t].remain == SCHED_TASK_TIME
  }

  lemma InterruptWaits(s: State, t: nat, c: int)
    requires ListsOk(s) && Waits(s, t, c)
    ensures c != 1 ==> Waits(RtcInterruptStep(s), t, c - 1)
    ensures c == 1 ==> Awake(RtcInterruptStep(s), t)
  {
    hide ListsOk, RtcInterruptStep, Reversed;
    InterruptIs(s);
    Split(s.tasks, s.rtc);
    InReversed(Woken(s.tasks, s.rtc));
  }

  lemma {:induction false} InReversed(x: seq<nat>)
    ensures forall t :: t in x ==> t in Reversed(x)
  {
    if x != [] {
      InReversed(x[1..]);
      assert x == [x[0]] + x[1..];
    }
  }

  /** No event of the run ends the wait of t otherwise. */
  predicate UndisturbedRun(s: State, events: seq<Event>, t: nat)
    requires CanRun(s, events)
    decreases |events|
  {
    events == [] || (Undisturbed(s, events[0], t) && UndisturbedRun(Step(s, events[0]), events[1..], t))
  }

  /** While the counter lasts, or if it started at 0 or below, the task waits. */
  lemma {:induction false} KeepsWaiting(s: State, events: seq<Event>, chains: seq<seq<nat>>, t: nat, c: int)
    returns (chains': seq<seq<nat>>)
    requires Inv(s, chains) && CanRun(s, events) && UndisturbedRun(s, events, t) && Waits(s, t, c)
    requires c <= 0 || Interrupts(events) < c
    ensures Inv(Run(s, events), chains') && Waits(Run(s, events), t, c - Interrupts(events))
    decreases |events|
  {
    hide *;
    chains' := chains;
    Unroll(s, events);
    if events != [] {
      var e := events[0];
      UndisturbedFirst(s, events, t);
      AnyStepWaits(s, e, chains, t, c);
      chains' := KernelRuns.StepKeeps(s, e, chains);
      chains' := KeepsWaiting(Step(s, e), events[1..], chains', t, if e.RtcInterrupt? then c - 1 else c);
    }
  }

  lemma UndisturbedFirst(s: State, events: seq<Event>, t: nat)
    requires CanRun(s, events) && events != [] && UndisturbedRun(s, events, t)
    ensures Enabled(s, events[0]) && CanRun(Step(s, events[0]), events[1..])
    ensures Undisturbed(s, events[0], t) && UndisturbedRun(Step(s, events[0]), events[1..], t)
  {
    hide Enabled, Step, Undisturbed;
  }

  lemma AnyStepWaits(s: State, e: Event, chains: seq<seq<nat>>, t: nat, c: int)
    requires Inv(s, chains) && Enabled(s, e) && Undisturbed(s, e, t) && Waits(s, t, c) && (e.RtcInterrupt? ==> c != 1)
    ensures Waits(Step(s, e), t, if e.RtcInterrupt? then c - 1 else c)
  {
    hide Waits, RtcInterruptStep, Tied, Stacked, Focused, ListsOk, Undisturbed;
    if e.RtcInterrupt? { InterruptWaits(s, t, c); } else { OtherStepWaits(s, e, chains, t, c); }
  }

  lemma Unroll(s: State, events: seq<Event>)
    requires CanRun(s, events)
    ensures events == [] ==> Run(s, events) == s && Interrupts(events) == 0
    ensures events != [] ==> Enabled(s, events[0]) && CanRun(Step(s, events[0]), events[1..])
    ensures events != [] ==> Run(s, events) == Run(Step(s, events[0]), events[1..])
    ensures events != [] ==> Interrupts(events) == (if events[0].RtcInterrupt? then 1 else 0) + Interrupts(events[1..])
  {
    hide Enabled, Step;
  }

  /** Interrupts a read waits for at frequency f: 64/f, and none will do above 64. */
  lemma WaitCountIs(f: int)
    requires f >= 1
    ensures WaitCount(f) == 64 / f && (WaitCount(f) == 0 <==> f > 64)
  {
    hide Quotient, WaitCount;
    WaitCountPositive(f);
    Nested(f);
    Small(f);
  }

  lemma WaitCountPositive(f: int)
    requires f >= 1
    ensures WaitCount(f) == 256 / f / 4
  {
    DivBounds(256, f);
  }

  lemma DivBounds(a: nat, f: int)
    requires f >= 1
    ensures a / f >= 0 && f * (a / f) <= a < f * (a / f) + f
  {
  }

  lemma Nested(f: int)
    requires f >= 1
    ensures 256 / f / 4 == 64 / f
  {
    var q, p := 256 / f, 64 / f;
    DivBounds(256, f);
    DivBounds(64, f);
    var r := q / 4;
    if r < p {
      Apart(f, q + 1, 4 * p);
      Quadruple(f, p);
    } else if p < r {
      Apart(f, 4 * (p + 1), q);
      Quadruple(f, p + 1);
      Distribute(f, p);
    }
  }

  lemma Apart(f: int, a: int, b: int)
    requires f >= 1 && a <= b
    ensures f * a <= f * b
  {
  }

  lemma Quadruple(f: int, a: int)
    ensures f * (4 * a) == 4 * (f * a)
  {
  }

  lemma Distribute(f: int, a: int)
    ensures f * (a + 1) == f * a + f
  {
  }

  lemma Small(f: int)
    requires f >= 1
    ensures 64 / f == 0 <==> f > 64
  {
    DivBounds(64, f);
    if f <= 64 && 64 / f == 0 { Distribute(f, 0); }
    if f > 64 && 64 / f >= 1 { Apart(f, 1, 64 / f); }
  }

  /** A read at frequency f puts the running task on the wait list. */
  lemma ReadStarts(s: State, chains: seq<seq<nat>>)
    requires Inv(s, chains) && Enabled(s, RtcRead) && s.tasks[s.running].freq != -1
    ensures Waits(RtcReadStep(s), s.running, WaitCount(s.tasks[s.running].freq))
    ensures Inv(RtcReadStep(s), chains)
  {
    hide WaitCount, Launch, Remove, Tied, Stacked, Focused;
    RtcReadKeeps(s);
    var s' := RtcReadStep(s);
    KernelRuns.QuietInv(s, s', chains);
    var task := s.tasks[s.running];
    LaunchTiming(s.(tasks := s.tasks[s.running := task.(counter := WaitCount(task.freq))],
                    run := Remove(s.run, s.running), rtc := [s.running] + s.rtc));
  }

  lemma EnabledRuns(s: State)
    requires Enabled(s, RtcRead)
    ensures s.running < |s.tasks|
  {
  }

  /** After a read at frequency f >= 1 the task waits through every run with fewer than 64/f interrupts, or through
      any if f > 64, in which its window is not closed and no key wakes it; the interrupt after 64/f - 1 of them wakes
      it. */
  lemma ReadWakes(s: State, chains: seq<seq<nat>>, events: seq<Event>)
    requires Inv(s, chains) && Enabled(s, RtcRead) && s.tasks[s.running].freq >= 1
    requires CanRun(RtcReadStep(s), events) && UndisturbedRun(RtcReadStep(s), events, s.running)
    ensures var f := s.tasks[s.running].freq; var s' := Run(RtcReadStep(s), events);
            && (f > 64 || Interrupts(events) < 64 / f ==> s.running in s'.rtc && s.running !in s'.run)
            && (f <= 64 && Interrupts(events) == 64 / f - 1 ==> Awake(RtcInterruptStep(s'), s.running))
  {
    hide Inv, Enabled, Run, CanRun, WaitCount, RtcReadStep, RtcInterruptStep, Interrupts, Awake, UndisturbedRun;
    EnabledRuns(s);
    var t, f := s.running, s.tasks[s.running].freq;
    WaitCountIs(f);
    ReadStarts(s, chains);
    var c := WaitCount(f);
    if f > 64 || Interrupts(events) < 64 / f {
      var chains' := KeepsWaiting(RtcReadStep(s), events, chains, t, c);
      var s' := Run(RtcReadStep(s), events);
      KernelRuns.InvParts(s', chains');
      Elsewhere(s', t);
      if f <= 64 && Interrupts(events) == 64 / f - 1 {
        InterruptWaits(s', t, 1);
      }
    }
  }
}
