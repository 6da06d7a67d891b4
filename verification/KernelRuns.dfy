/** Runs of the kernel: the invariants hold in every state that boot can reach. */
module KernelRuns {
  import opened Common
  import opened Kernel
  import opened KernelInvariant

  // ----- Closing

  /** Focus after terminal k is closed or given back to a parent. */
  lemma FocusMoves(s: State, chains: seq<seq<nat>>, k: nat, fg: seq<Option<nat>>, focus: Option<nat>)
    requires Tied(s.tasks, s.child, s.slots, s.fg, chains) && Focused(s.fg, s.focus) && k < TERMINAL_MAX_COUNT
    requires s.fg[k].Some?
    requires |fg| == |s.fg| && forall j :: 0 <= j < |fg| && j != k ==> fg[j] == s.fg[j]
    requires FocusOn(s, k) ==> Focused(fg, focus)
    requires !FocusOn(s, k) ==> focus == s.focus
    ensures Focused(fg, focus)
  {
    hide Tied;
    if !FocusOn(s, k) {
      assert Sized(s.fg) by { assert Tied(s.tasks, s.child, s.slots, s.fg, chains); TiedSizes(s, chains); }
      assert s.fg[k] != None;
      assert s.focus.Some?;
      var j: nat :| j < |s.fg| && s.fg[j] == s.focus;
      ForegroundIs(s, chains, j);
      assert fg[j] == s.focus;
    }
  }

  predicate Sized(fg: seq<Option<nat>>) {
    |fg| == TERMINAL_MAX_COUNT
  }

  lemma TiedSizes(s: State, chains: seq<seq<nat>>)
    requires Tied(s.tasks, s.child, s.slots, s.fg, chains)
    ensures Sized(s.fg) && |s.slots| == |chains| == TERMINAL_MAX_COUNT
  {
  }

  lemma WindowCloses(stack: seq<nat>, slots: seq<bool>, k: nat)
    requires Stacked(stack, slots) && k < |slots| && slots[k]
    ensures Stacked(Remove(stack, k), slots[k := false])
  {
    hide Count, Remove;
    RemoveOnce(stack, k);
    CountIn(stack);
    forall j: nat ensures Count(Remove(stack, k), j) == if Open(slots[k := false], j) then 1 else 0 {
      assert Count(stack, j) == if Open(slots, j) then 1 else 0;
    }
  }

  lemma TearDownTies(s: State, chains: seq<seq<nat>>, k: nat) returns (chains': seq<seq<nat>>)
    requires Inv(s, chains) && k < TERMINAL_MAX_COUNT && s.fg[k].Some?
    ensures Tearable(s, s.fg[k].value)
    ensures var s' := TearDown(s, s.fg[k].value);
            ListsOk(s') && Tied(s'.tasks, s'.child, s'.slots, s'.fg, chains') && Stacked(s'.stack, s'.slots)
            && Focused(s'.fg, s'.focus)
  {
    hide ListsOk, Tied, Stacked, Focused, Remove, AnotherFrom, FocusOn, TaskOk;
    Sizes(s, chains);
    ForegroundIs(s, chains, k);
    ParentIs(s, chains, k);
    var t, c := s.fg[k].value, chains[k];
    var s' := TearDown(s, t);
    UserTask(s, t);
    TearDownLists(s, t);
    TearDownTerminal(s, t);
    if |c| == 1 {
      assert c == [t];
      OwnerTies(s.tasks, s'.tasks, t, s.child, s.slots, s.fg, k, chains);
      chains' := chains[k := []];
      WindowCloses(s.stack, s.slots, k);
      AnotherTerminal(s.fg[k := None], k);
      FocusMoves(s, chains, k, s'.fg, s'.focus) by {
        assert FocusOn(s, k) ==> Focused(s'.fg, s'.focus) by { AnotherFocus(s.fg[k := None], k); }
      }
    } else {
      var p := c[|c| - 2];
      RemovedIs(s, p);
      ParentTies(s.tasks, s'.tasks, t, p, s.child, s'.child, s.slots, s.fg, k, chains);
      chains' := chains[k := c[..|c| - 1]];
      FocusMoves(s, chains, k, s'.fg, s'.focus) by {
        assert FocusOn(s, k) ==> Focused(s'.fg, s'.focus) by { assert s'.fg[k] == Some(p); ParentFocus(s'.fg, p); }
      }
    }
  }

  lemma AnotherFocus(fg: seq<Option<nat>>, k: nat)
    requires |fg| == TERMINAL_MAX_COUNT && k < TERMINAL_MAX_COUNT && fg[k].None?
    ensures var r := AnotherFrom(fg, k, 1);
            (r.Some? ==> r.value < |fg|) && Focused(fg, if r.Some? then fg[r.value] else None)
  {
    hide AnotherFrom;
    AnotherTerminal(fg, k);
  }

  lemma ParentFocus(fg: seq<Option<nat>>, p: nat)
    requires Some(p) in fg
    ensures Focused(fg, Some(p))
  {
  }

  lemma UserTask(s: State, t: nat)
    requires ListsOk(s) && Live(s.tasks, t)
    ensures TaskOk(s.tasks[t], t) && (!s.tasks[t].kernel ==> t > IDLE_TASK && !s.tasks[t].idle)
  {
  }

  lemma RemovedIs(s: State, p: nat)
    requires ListsOk(s)
    ensures forall u: nat :: u in Remove(s.child, p) <==> u in s.child && u != p
  {
    hide TasksOk, TaskOk, Placed, Count;
    RemoveOnce(s.child, p);
    CountIn(s.child);
    CountIn(Remove(s.child, p));
    OnlyThere(s, p);
  }

  /** Terminals, windows and focus after a task is torn down. */
  lemma TearDownTerminal(s: State, t: nat)
    requires Tearable(s, t)
    requires s.tasks[t].parent.Some? ==> s.tasks[t].parent.value != t && !s.tasks[t].owner
    ensures var s' := TearDown(s, t); var k := s.tasks[t].term.value;
            && s'.ask == s.ask && s'.running == s.running
            && (s.tasks[t].owner ==>
              && s'.fg == s.fg[k := None] && s'.stack == Remove(s.stack, k) && s'.slots == s.slots[k := false]
              && s'.focus == if !FocusOn(s, k) then s.focus
                             else
                               var r := AnotherFrom(s.fg[k := None], k, 1);
                               if r.Some? then s.fg[k := None][r.value] else None)
            && (!s.tasks[t].owner && s.tasks[t].parent.Some? ==>
              && s'.fg == s.fg[k := s.tasks[t].parent] && s'.stack == s.stack && s'.slots == s.slots
              && s'.focus == if FocusOn(s, k) then s.tasks[t].parent else s.focus)
  {
    hide Remove, AnotherFrom;
    AnotherTerminal(s.fg[s.tasks[t].term.value := None], s.tasks[t].term.value);
  }

  lemma HaltKeeps(s: State, chains: seq<seq<nat>>) returns (chains': seq<seq<nat>>)
    requires Inv(s, chains) && Guard(s, Halt)
    ensures Inv(HaltStep(s), chains') && Headed(HaltStep(s))
    ensures Answered(s) ==> Answered(HaltStep(s))
  {
    hide TasksOk, Placed, Tied, Stacked, Focused, TearDown, Launch, Count, Answered;
    Sizes(s, chains);
    UserRuns(s);
    var t := s.running;
    Foreground(s, chains, t);
    var k := s.tasks[t].term.value;
    chains' := TearDownTies(s, chains, k);
    ParentIs(s, chains, k);
    TearDownLists(s, t);
    TearDownTerminal(s, t);
    var s1 := TearDown(s, t);
    if s.tasks[t].parent.None? { LaunchKeeps(s1); } else { SameLists(s1, HaltStep(s)); }
    if Answered(s) {
      RemoveOnce(s.reader, t);
      ForegroundsDiffer(s, chains);
      AnsweredAs(s, HaltStep(s), k);
    }
  }

  lemma CloseOtherKeeps(s: State, chains: seq<seq<nat>>) returns (chains': seq<seq<nat>>)
    requires Inv(s, chains) && Guard(s, CloseOther)
    ensures Inv(TearDown(s, TopTask(s).value), chains')
  {
    hide TasksOk, Placed, Tied, Stacked, Focused, TearDown, Count, Remove;
    Sizes(s, chains);
    var k, t := s.stack[0], TopTask(s).value;
    ForegroundIs(s, chains, k);
    UserTask(s, t);
    chains' := TearDownTies(s, chains, k);
    ParentIs(s, chains, k);
    TearDownLists(s, t);
    TearDownTerminal(s, t);
    RemoveOnce(s.run, t);
    CountIn(s.run);
    CountIn(Remove(s.run, t));
  }

  // ----- One step

  lemma QuietInv(s: State, s': State, chains: seq<seq<nat>>)
    requires Inv(s, chains) && Quiet(s, s')
    ensures Inv(s', chains)
  {
    hide ListsOk, Tied, Stacked, Focused, SameTasks;
    SameTies(s.tasks, s'.tasks, s.child, s.slots, s.fg, chains);
  }

  lemma TermReadAnswered(s: State, n: int, chains: seq<seq<nat>>)
    requires Inv(s, chains) && Guard(s, TermRead(n)) && Answered(s)
    ensures Answered(TermReadStep(s, n))
  {
    hide ListsOk, Tied, Launch, TaskOk, Quiet;
    UserRuns(s);
    Foreground(s, chains, s.running);
    TermReadKeeps(s, n);
    var s' := TermReadStep(s, n);
    assert s'.fg == s.fg by { assert Quiet(s, s'); QuietFg(s, s'); }
    forall k: nat | k < TERMINAL_MAX_COUNT ensures Asks(s'.ask, s'.fg, s'.reader, k) {
      assert Asks(s.ask, s.fg, s.reader, k);
    }
  }

  lemma QuietFg(s: State, s': State)
    requires Quiet(s, s')
    ensures s'.fg == s.fg
  {
  }

  lemma ReadNowKeeps(s: State, chains: seq<seq<nat>>)
    requires Inv(s, chains)
    ensures Inv(Ask(s, s.running, 0), chains) && (Answered(s) ==> Answered(Ask(s, s.running, 0)))
  {
    hide Tied;
    var s' := Ask(s, s.running, 0);
    AskKeeps(s, s.running);
    if Answered(s) {
      forall k: nat | k < TERMINAL_MAX_COUNT ensures Asks(s'.ask, s'.fg, s'.reader, k) {
        assert Asks(s.ask, s.fg, s.reader, k);
      }
    }
  }

  /** A foreground task wakes. */
  lemma WakeForeground(s: State, k: nat, chains: seq<seq<nat>>)
    requires Inv(s, chains) && k < TERMINAL_MAX_COUNT && s.fg[k].Some?
    ensures Inv(Wake(s, s.fg[k].value), chains) && Headed(Wake(s, s.fg[k].value))
    ensures Answered(s) ==> Answered(Wake(s, s.fg[k].value))
  {
    hide ListsOk, Tied, Wake, Headed, TaskOk, Focused, Stacked;
    Sizes(s, chains);
    var t := s.fg[k].value;
    var s' := Wake(s, t);
    ForegroundIs(s, chains, k);
    UserTask(s, t);
    WakeKeeps(s, t);
    QuietInv(s, s', chains);
    if Answered(s) {
      ForegroundsDiffer(s, chains);
      ReaderGone(s, t);
      forall j: nat | j < TERMINAL_MAX_COUNT ensures Asks(s'.ask, s'.fg, s'.reader, j) {
        assert Asks(s.ask, s.fg, s.reader, j);
        if j != k && s.fg[j].Some? { assert s.fg[j] != s.fg[k]; }
      }
    }
  }

  lemma ReaderGone(s: State, t: nat)
    ensures forall u: nat :: u in s.reader && u != t ==> u in Remove(s.reader, t)
    ensures t !in s.reader ==> Remove(s.reader, t) == s.reader
  {
    hide Count, Remove;
    RemoveOnce(s.reader, t);
    CountIn(s.reader);
    CountIn(Remove(s.reader, t));
  }

  /** The invariant is kept by every step; all but closing another task's window keep the running task at the head of
      the run queue and the readers that are asked for waiting. */
  lemma StepKeeps(s: State, e: Event, chains: seq<seq<nat>>) returns (chains': seq<seq<nat>>)
    requires Inv(s, chains) && Enabled(s, e)
    ensures Inv(Step(s, e), chains')
    ensures !e.CloseOther? && Headed(s) ==> Headed(Step(s, e))
    ensures !e.CloseOther? && Answered(s) ==> Answered(Step(s, e))
  {
    hide Inv, Answered, TickStep, YieldStep, RtcSet, RtcReadStep, RtcInterruptStep, TermReadStep, Ask, Wake, ShellStep,
         ProgramStep, HaltStep, TearDown, Activate, Focus, IsPowerOfTwo, Quiet, Headed;
    chains' := chains;
    match e
    case Tick => {
      InvParts(s, chains);
      TickKeeps(s);
      QuietInv(s, TickStep(s), chains);
      KeptAnswers(s, TickStep(s));
    }
    case Yield => {
      InvParts(s, chains);
      YieldKeeps(s);
      QuietInv(s, YieldStep(s), chains);
      KeptAnswers(s, YieldStep(s));
    }
    case RtcOpen => TimingInv(s, s.tasks[s.running].(freq := 2), chains);
    case RtcWrite(f) => if IsPowerOfTwo(f) { RtcSetKeeps(s, f, chains); }
    case RtcRead => {
      InvParts(s, chains);
      RtcReadKeeps(s);
      QuietInv(s, RtcReadStep(s), chains);
      KeptAnswers(s, RtcReadStep(s));
    }
    case RtcInterrupt => {
      InvParts(s, chains);
      RtcInterruptKeeps(s);
      QuietInv(s, RtcInterruptStep(s), chains);
      KeptAnswers(s, RtcInterruptStep(s));
    }
    case TermRead(n) => {
      InvParts(s, chains);
      TermReadKeeps(s, n);
      QuietInv(s, TermReadStep(s, n), chains);
      if Answered(s) { TermReadAnswered(s, n, chains); }
    }
    case ReadNow => { ReadNowKeeps(s, chains); AskHeaded(s, s.running); }
    case KeyWake => {
      var k := FocusTerminal(s, chains);
      WakeForeground(s, k, chains);
    }
    case KeyElsewhere(k) => {
      FocusInv(s, k, chains);
      WakeForeground(Focus(s, k), k, chains) by { FocusFields(s, k); }
      FocusFields(s, k);
    }
    case Shell(loads) => {
      if loads {
        chains' := ShellKeeps(s, chains);
      } else {
        ShellRolledBack(s, chains);
        SameAnswers(s, ShellStep(s, false));
      }
    }
    case Program(loads) => {
      if loads {
        chains' := ProgramKeeps(s, chains);
      } else {
        ProgramRolledBack(s, chains);
        SameAnswers(s, ProgramStep(s, false));
      }
    }
    case Halt => chains' := HaltKeeps(s, chains);
    case CloseOther => chains' := CloseOtherKeeps(s, chains);
    case ChangeFocus(id) => FocusInv(s, id, chains);
    case PressWindow(i) => if i < |s.stack| && i != 0 { ActivateInv(s, s.stack[i], chains); }
  }

  lemma InvParts(s: State, chains: seq<seq<nat>>)
    requires Inv(s, chains)
    ensures ListsOk(s) && s.running in s.run && |s.tasks| == TASK_MAX_COUNT
  {
  }

  lemma KeptAnswers(s: State, s': State)
    requires Quiet(s, s') && s'.reader == s.reader && s'.ask == s.ask
    ensures Answered(s) ==> Answered(s')
  {
    hide ListsOk, Asks;
  }

  lemma SameAnswers(s: State, s': State)
    requires s'.(tasks := s.tasks) == s
    ensures (Answered(s) ==> Answered(s')) && (Headed(s) ==> Headed(s'))
  {
    hide Asks;
  }

  lemma AskHeaded(s: State, t: nat)
    ensures Headed(s) ==> Headed(Ask(s, t, 0))
  {
  }

  lemma TimingInv(s: State, task: Task, chains: seq<seq<nat>>)
    requires Inv(s, chains) && s.running < |s.tasks| && task.freq != 0
    requires task.(freq := 0, counter := 0) == s.tasks[s.running].(freq := 0, counter := 0)
    ensures Inv(s.(tasks := s.tasks[s.running := task]), chains)
    ensures var s' := s.(tasks := s.tasks[s.running := task]);
            (Answered(s) ==> Answered(s')) && (Headed(s) ==> Headed(s'))
  {
    hide ListsOk, Tied, Stacked, Focused, SameTasks, Asks;
    Retimed(s, s.running, task);
    SameTies(s.tasks, s.tasks[s.running := task], s.child, s.slots, s.fg, chains);
  }

  lemma RtcSetKeeps(s: State, f: int, chains: seq<seq<nat>>)
    requires Inv(s, chains) && s.running < |s.tasks| && f != 0
    ensures Inv(RtcSet(s, f), chains) && (Answered(s) ==> Answered(RtcSet(s, f)))
    ensures Headed(s) ==> Headed(RtcSet(s, f))
  {
    hide Inv, Answered, WaitCount;
    TimingInv(s, s.tasks[s.running].(freq := f, counter := WaitCount(f)), chains);
  }

  lemma FocusTerminal(s: State, chains: seq<seq<nat>>) returns (k: nat)
    requires Inv(s, chains) && s.focus.Some?
    ensures |s.fg| == TERMINAL_MAX_COUNT && k < TERMINAL_MAX_COUNT && s.fg[k] == s.focus
  {
    Sizes(s, chains);
    k :| k < |s.fg| && s.fg[k] == s.focus;
  }

  lemma FocusFields(s: State, id: int)
    ensures Focus(s, id).(focus := s.focus) == s
  {
  }

  lemma FocusInv(s: State, id: int, chains: seq<seq<nat>>)
    requires Inv(s, chains)
    ensures Inv(Focus(s, id), chains) && (Answered(s) ==> Answered(Focus(s, id)))
    ensures Headed(s) ==> Headed(Focus(s, id))
  {
    hide Tied, Stacked, Asks, TasksOk, Count, Live;
    FocusKeeps(s, id);
    SameLists(s, Focus(s, id));
  }

  lemma ActivateInv(s: State, k: nat, chains: seq<seq<nat>>)
    requires Inv(s, chains)
    ensures Inv(Activate(s, k), chains) && (Answered(s) ==> Answered(Activate(s, k)))
    ensures Headed(s) ==> Headed(Activate(s, k))
  {
    hide Tied, Stacked, Asks, TasksOk, Count, Live, Activate;
    ActivateKeeps(s, k);
    SameLists(s, Activate(s, k));
  }

  // ----- Runs

  lemma {:induction false} RunKeeps(s: State, events: seq<Event>,
                                    chains: seq<seq<nat>>) returns (chains': seq<seq<nat>>)
    requires Inv(s, chains) && CanRun(s, events)
    ensures Inv(Run(s, events), chains')
    decreases |events|
  {
    hide Inv, Enabled, Step, Headed, Answered;
    if events == [] {
      chains' := chains;
    } else {
      chains' := StepKeeps(s, events[0], chains);
      chains' := RunKeeps(Step(s, events[0]), events[1..], chains');
    }
  }

  lemma BootInv()
    ensures Inv(Boot(), NoChains()) && Headed(Boot()) && Answered(Boot())
  {
    hide BootTasks, TasksOk, Placed, Tied, Stacked, Count;
    BootLists(Boot());
    BootTies();
    NothingStacked(Boot().slots);
  }

  function NoChains(): seq<seq<nat>> {
    [[], [], [], [], []]
  }

  lemma BootLists(s: State)
    requires s.tasks == BootTasks() && s.run == [IDLE_TASK, INIT_TASK] && s.rtc == s.reader == s.child == []
    ensures ListsOk(s)
  {
    hide Count, BootTasks, TaskOk;
    BootRun();
    NoCount();
    forall t: nat
      ensures OnLists(s, t) == if Live(s.tasks, t) then 1 else 0
      ensures Live(s.tasks, t) ==> TaskOk(s.tasks[t], t)
    {
      BootTask(t);
    }
    BootTask(INIT_TASK);
    BootTask(IDLE_TASK);
  }

  lemma BootTask(t: nat)
    ensures |BootTasks()| == TASK_MAX_COUNT && Live(BootTasks(), t) == (t <= IDLE_TASK)
    ensures t <= IDLE_TASK ==> TaskOk(BootTasks()[t], t) && BootTasks()[t].valid
  {
  }

  lemma BootRun()
    ensures forall u: nat :: Count([IDLE_TASK, INIT_TASK], u) == if u <= IDLE_TASK then 1 else 0
  {
    hide Count;
    assert [IDLE_TASK, INIT_TASK] == [IDLE_TASK] + [INIT_TASK];
    CountFirst([INIT_TASK], IDLE_TASK);
    OneCount(INIT_TASK);
  }

  lemma OneCount(t: nat)
    ensures forall u: nat :: Count([t], u) == if u == t then 1 else 0
  {
  }

  lemma NoCount()
    ensures forall u: nat :: Count([], u) == 0
  {
  }

  lemma BootTies()
    ensures Tied(BootTasks(), [], Boot().slots, Boot().fg, NoChains())
  {
    forall k: nat | k < TERMINAL_MAX_COUNT
      ensures ChainOk(BootTasks(), [], k, NoChains()[k]) && TerminalOk(Boot().slots, Boot().fg, NoChains(), k)
    {
      assert NoChains()[k] == [];
    }
  }

  lemma NothingStacked(slots: seq<bool>)
    requires forall k :: 0 <= k < |slots| ==> !slots[k]
    ensures Stacked([], slots)
  {
    hide Count;
    NoCount();
  }

  /** In every state the kernel can reach, each live task is on exactly one list, once, the running task is on the run
      queue, and the two boot tasks are always runnable. */
  lemma EveryRunLists(events: seq<Event>)
    requires CanRun(Boot(), events)
    ensures var s := Run(Boot(), events);
            && (forall t: nat :: OnLists(s, t) == if Live(s.tasks, t) then 1 else 0)
            && s.running in s.run && INIT_TASK in s.run && IDLE_TASK in s.run
  {
    hide CanRun, Run, Boot, Tied, Stacked, Focused, TasksOk, Count, Live;
    BootInv();
    var chains := RunKeeps(Boot(), events, NoChains());
  }

  /** The task is the foreground task of its terminal. */
  predicate FocusInFront(s: State, t: nat) {
    t < |s.tasks| && s.tasks[t].term.Some? && s.tasks[t].term.value < |s.fg| && s.fg[s.tasks[t].term.value] == Some(t)
  }

  /** Slots, foreground tasks, windows and focus agree. */
  ghost predicate Agreement(s: State) {
    && |s.slots| == |s.fg| == TERMINAL_MAX_COUNT
    && (forall k: nat :: Count(s.stack, k) == if Open(s.slots, k) then 1 else 0)
    && (forall k: nat :: k < TERMINAL_MAX_COUNT ==> Open(s.slots, k) == s.fg[k].Some?)
    && (forall k: nat :: k < TERMINAL_MAX_COUNT && s.fg[k].Some? ==>
          Live(s.tasks, s.fg[k].value) && s.tasks[s.fg[k].value].term == Some(k) && s.fg[k].value !in s.child)
    && (s.focus.None? <==> forall k: nat :: k < TERMINAL_MAX_COUNT ==> !Open(s.slots, k))
    && (s.focus.Some? ==> FocusInFront(s, s.focus.value))
    && |s.stack| <= GUI_MAX_WINDOW_NUM
  }

  lemma InvAgrees(s: State, chains: seq<seq<nat>>)
    requires Inv(s, chains)
    ensures Agreement(s)
  {
    hide ListsOk, Tied, Count;
    Sizes(s, chains);
    forall k: nat | k < TERMINAL_MAX_COUNT
      ensures Open(s.slots, k) == s.fg[k].Some?
      ensures s.fg[k].Some? ==>
              Live(s.tasks, s.fg[k].value) && s.tasks[s.fg[k].value].term == Some(k) && s.fg[k].value !in s.child
    {
      if s.fg[k].Some? { ForegroundIs(s, chains, k); }
      SlotTaken(s, chains, k);
    }
    if s.focus.Some? {
      var k := FocusTerminal(s, chains);
      ForegroundIs(s, chains, k);
      assert Open(s.slots, k);
    }
    StackFits(s.stack, s.slots);
  }

  /** There are no more windows than terminals. */
  lemma StackFits(stack: seq<nat>, slots: seq<bool>)
    requires Stacked(stack, slots) && |slots| == TERMINAL_MAX_COUNT
    ensures |stack| <= GUI_MAX_WINDOW_NUM
  {
    hide Count;
    CountIn(stack);
    forall t: nat ensures Count(stack, t) <= 1 { assert Count(stack, t) == if Open(slots, t) then 1 else 0; }
    OnceDistinct(stack);
    var room: set<nat> := {0, 1, 2, 3, 4};
    forall t | t in stack ensures t in room {
      assert Open(slots, t);
    }
    DistinctBound(stack, room);
  }

  lemma SlotTaken(s: State, chains: seq<seq<nat>>, k: nat)
    requires Inv(s, chains) && k < TERMINAL_MAX_COUNT
    ensures |s.slots| == |s.fg| == TERMINAL_MAX_COUNT && Open(s.slots, k) == s.fg[k].Some?
  {
    hide ListsOk;
    assert TerminalOk(s.slots, s.fg, chains, k);
  }

  /** In every reachable state terminal slots, foreground tasks, window stack and focus agree. */
  lemma EveryRunAgrees(events: seq<Event>)
    requires CanRun(Boot(), events)
    ensures Agreement(Run(Boot(), events))
  {
    hide CanRun, Run, Boot, Inv;
    BootInv();
    var chains := RunKeeps(Boot(), events, NoChains());
    InvAgrees(Run(Boot(), events), chains);
  }

  /** In every reachable state with a free terminal slot, its window can be created. */
  lemma EveryRunWindowFits(events: seq<Event>)
    requires CanRun(Boot(), events)
    requires FirstFree(Run(Boot(), events).slots) < TERMINAL_MAX_COUNT
    ensures NewWindow(Run(Boot(), events).stack, FirstFree(Run(Boot(), events).slots)).Some?
  {
    hide CanRun, Run, Boot, ListsOk, Tied;
    BootInv();
    var chains := RunKeeps(Boot(), events, NoChains());
    var s := Run(Boot(), events);
    Sizes(s, chains);
    WindowFits(s.stack, s.slots, FirstFree(s.slots));
  }

  /** The source reaches every event in turn; nothing is said after one that breaks a list. */
  predicate Offered(s: State, events: seq<Event>)
    decreases |events|
  {
    events == [] || (Guard(s, events[0]) && (Enabled(s, events[0]) ==> Offered(Step(s, events[0]), events[1..])))
  }

  lemma {:induction false} RunOffered(s: State, events: seq<Event>)
    requires CanRun(s, events)
    ensures Offered(s, events)
    decreases |events|
  {
    hide Enabled, Guard, Step;
    if events != [] {
      assert Guard(s, events[0]) by { EnabledGuard(s, events[0]); }
      RunOffered(Step(s, events[0]), events[1..]);
    }
  }

  lemma EnabledGuard(s: State, e: Event)
    requires Enabled(s, e)
    ensures Guard(s, e)
  {
    hide Guard;
  }

  /** A key that completes a read wakes the task that waits for it, which is not on the run queue. */
  lemma KeyWakesReader(s: State, chains: seq<seq<nat>>)
    requires Inv(s, chains) && Answered(s) && Guard(s, KeyWake)
    ensures s.focus.value in s.reader && !SelfMove(s, KeyWake)
  {
    hide Tied, Stacked, TasksOk, Placed;
    var k := FocusTerminal(s, chains);
    assert Asks(s.ask, s.fg, s.reader, k) by {
      ForegroundIs(s, chains, k);
    }
    ForegroundIs(s, chains, k);
    OnlyThere(s, s.focus.value);
  }

  // ----- Runs in which no list breaks

  /** No window is closed on a terminal that is asked for input, and no function key leads to the head of the run
      queue. */
  predicate Harmless(s: State, e: Event) {
    match e
    case CloseOther => s.stack != [] && s.stack[0] < |s.ask| ==> s.ask[s.stack[0]] == 0
    case KeyElsewhere(k) => s.run != [] && k < |s.fg| ==> s.fg[k] != Some(s.run[0])
    case _ => true
  }

  predicate Safe(s: State, events: seq<Event>)
    decreases |events|
  {
    events == [] || (Harmless(s, events[0]) && (Enabled(s, events[0]) ==> Safe(Step(s, events[0]), events[1..])))
  }

  /** Whoever is asked for waits, in every state of the run. */
  ghost predicate StaysAnswered(s: State, events: seq<Event>)
    requires CanRun(s, events)
    decreases |events|
  {
    Answered(s) && (events != [] ==> StaysAnswered(Step(s, events[0]), events[1..]))
  }

  lemma HarmlessStep(s: State, e: Event, chains: seq<seq<nat>>)
    requires Inv(s, chains) && Answered(s) && Guard(s, e)
    ensures Harmless(s, e) ==> Enabled(s, e)
    ensures Enabled(s, e) ==> (Answered(Step(s, e)) <==> Harmless(s, e))
  {
    hide Inv, Answered, Step, TearDown;
    if e.KeyWake? { KeyWakesReader(s, chains); }
    if e.CloseOther? {
      CloseOtherAnswers(s, chains);
      assert Step(s, e) == TearDown(s, TopTask(s).value) by { StepClose(s); }
    } else if Enabled(s, e) {
      var _ := StepKeeps(s, e, chains);
    }
  }

  lemma StepClose(s: State)
    requires Enabled(s, CloseOther)
    ensures Step(s, CloseOther) == TearDown(s, TopTask(s).value)
  {
    hide TearDown;
  }

  /** From a state where whoever is asked for waits, a run is safe exactly if the kernel can take all of it, without
      moving a node relative to itself, and whoever is asked for waits all the time. */
  lemma {:induction false} SafeExactly(s: State, events: seq<Event>, chains: seq<seq<nat>>)
    requires Inv(s, chains) && Answered(s) && Offered(s, events)
    ensures Safe(s, events) <==> CanRun(s, events) && StaysAnswered(s, events)
    decreases |events|
  {
    hide Inv, Guard, Step, Harmless, Answered;
    if events != [] {
      HarmlessStep(s, events[0], chains);
      if Harmless(s, events[0]) {
        var chains' := StepKeeps(s, events[0], chains);
        SafeExactly(Step(s, events[0]), events[1..], chains');
      }
    }
  }

  lemma {:induction false} SafeRun(s: State, events: seq<Event>, chains: seq<seq<nat>>) returns (chains': seq<seq<nat>>)
    requires Inv(s, chains) && Answered(s) && Offered(s, events) && Safe(s, events)
    ensures CanRun(s, events) && Inv(Run(s, events), chains') && Answered(Run(s, events))
    decreases |events|
  {
    hide Inv, Guard, Step, Harmless, Answered;
    chains' := chains;
    if events != [] {
      HarmlessStep(s, events[0], chains);
      chains' := StepKeeps(s, events[0], chains);
      chains' := SafeRun(Step(s, events[0]), events[1..], chains');
    }
  }

  /** From boot: as long as no window is closed on a terminal that is asked for input and no function key leads to the
      head of the run queue, no step moves a node relative to itself, and whoever is asked for waits. */
  lemma SafeRunsKeepLists(events: seq<Event>)
    requires Offered(Boot(), events)
    ensures Safe(Boot(), events) <==> CanRun(Boot(), events) && StaysAnswered(Boot(), events)
    ensures Safe(Boot(), events) ==> Answered(Run(Boot(), events))
  {
    hide *;
    BootInv();
    SafeExactly(Boot(), events, NoChains());
    if Safe(Boot(), events) { var _ := SafeRun(Boot(), events, NoChains()); }
  }

  predicate Calm(e: Event) {
    !e.CloseOther? && !e.KeyElsewhere?
  }

  lemma {:induction false} CalmRun(s: State, events: seq<Event>, chains: seq<seq<nat>>)
    requires Inv(s, chains) && CanRun(s, events) && Headed(s) && forall e :: e in events ==> Calm(e)
    ensures Headed(Run(s, events))
    decreases |events|
  {
    hide Inv, Enabled, Step, Headed;
    if events != [] {
      assert Calm(events[0]);
      var chains' := StepKeeps(s, events[0], chains);
      CalmRun(Step(s, events[0]), events[1..], chains');
    }
  }

  lemma {:induction false} CalmIsSafe(s: State, events: seq<Event>)
    requires forall e :: e in events ==> Calm(e)
    ensures Safe(s, events)
    decreases |events|
  {
    hide Guard, Step;
    if events != [] {
      assert Calm(events[0]);
      if Enabled(s, events[0]) { CalmIsSafe(Step(s, events[0]), events[1..]); }
    }
  }

  /** In particular if no other task's window is closed and no function key is held while a read completes; then the
      running task is also the head of the run queue. */
  lemma CalmRunsKeepLists(events: seq<Event>)
    requires Offered(Boot(), events) && forall e :: e in events ==> Calm(e)
    ensures CanRun(Boot(), events) && Headed(Run(Boot(), events)) && Answered(Run(Boot(), events))
  {
    hide *;
    BootInv();
    CalmIsSafe(Boot(), events);
    SafeRunsKeepLists(events);
    CalmRun(Boot(), events, NoChains());
  }

  // ----- Where the guarantees end

  /** Closing another task's window leaves its read asked for with nobody waiting, exactly when it was asked for. */
  lemma CloseOtherAnswers(s: State, chains: seq<seq<nat>>)
    requires Inv(s, chains) && Answered(s) && Guard(s, CloseOther)
    ensures Answered(TearDown(s, TopTask(s).value)) <==> s.ask[s.stack[0]] == 0
  {
    hide TasksOk, Placed, Tied, Stacked, Focused, TearDown, Count;
    Sizes(s, chains);
    var k, t := s.stack[0], TopTask(s).value;
    Closed(s, chains);
    ReaderGone(s, t);
    ForegroundsDiffer(s, chains);
    var s' := TearDown(s, t);
    if s.tasks[t].parent.Some? { OnlyThere(s, s.tasks[t].parent.value); }
    assert Asks(s'.ask, s'.fg, s'.reader, k) == (s.ask[k] == 0) by {
      if s.tasks[t].parent.Some? {
        assert s.tasks[t].parent.value !in Remove(s.reader, t) by { RemovedReader(s, t); }
      }
    }
    forall j: nat | j < TERMINAL_MAX_COUNT && j != k ensures Asks(s'.ask, s'.fg, s'.reader, j) {
      assert Asks(s.ask, s.fg, s.reader, j);
    }
  }

  /** What closing another task's window changes, for the top terminal and its foreground task. */
  lemma Closed(s: State, chains: seq<seq<nat>>)
    requires Inv(s, chains) && Guard(s, CloseOther)
    ensures var k, t := s.stack[0], TopTask(s).value; var parent := s.tasks[t].parent; var s' := TearDown(s, t);
            && k < TERMINAL_MAX_COUNT && s.fg[k] == Some(t) && s.tasks[t].term == Some(k)
            && s'.ask == s.ask && s'.running == s.running && s'.fg == s.fg[k := parent]
            && s'.reader == Remove(s.reader, t)
            && s'.run == (if parent.Some? then [parent.value] else []) + Remove(s.run, t)
            && (parent.Some? ==> parent.value in s.child && s'.focus == if FocusOn(s, k) then parent else s.focus)
  {
    hide TasksOk, Placed, Tied, Stacked, Focused, TearDown, Count, Remove, AnotherFrom;
    Sizes(s, chains);
    var k, t := s.stack[0], TopTask(s).value;
    ForegroundIs(s, chains, k);
    UserTask(s, t);
    ParentIs(s, chains, k);
    TearDownLists(s, t);
    TearDownTerminal(s, t);
  }

  /** The running task is no longer the head of the run queue, exactly when the closed task had a parent. */
  lemma CloseOtherExactly(s: State, chains: seq<seq<nat>>)
    requires Inv(s, chains) && Headed(s) && Guard(s, CloseOther)
    ensures Headed(TearDown(s, TopTask(s).value)) <==> s.tasks[TopTask(s).value].parent.None?
  {
    hide TasksOk, Placed, Tied, Stacked, Focused, TearDown, Count;
    var t := TopTask(s).value;
    Closed(s, chains);
    UserRuns(s);
    if s.tasks[t].parent.Some? { OnlyThere(s, s.tasks[t].parent.value); }
  }

  /** After such a close the next key would move the head of the run queue before itself, exactly when input was asked
      for on the closed terminal, its task had a parent, and it had the focus. */
  lemma CloseThenKey(s: State, chains: seq<seq<nat>>)
    requires Inv(s, chains) && Answered(s) && Guard(s, CloseOther)
    ensures var k, t := s.stack[0], TopTask(s).value; var s' := TearDown(s, t);
            Guard(s', KeyWake) && SelfMove(s', KeyWake)
            <==> s.ask[k] != 0 && s.tasks[t].parent.Some? && FocusOn(s, k)
  {
    hide ListsOk, Tied, Stacked, Focused, Answered, TearDown, Remove;
    var k, t := s.stack[0], TopTask(s).value;
    var s' := TearDown(s, t);
    Closed(s, chains);
    Sizes(s, chains);
    var chains' := CloseOtherKeeps(s, chains);
    Sizes(s', chains');
    InvParts(s', chains');
    UserRuns(s');
    if s.tasks[t].parent.Some? {
      ForegroundIs(s', chains', k);
      if !FocusOn(s, k) && s.focus.Some? {
        var j := FocusTerminal(s, chains);
        ForegroundIs(s, chains, j);
      }
    } else if Guard(s', KeyWake) {
      ForegroundsDiffer(s, chains);
      AskedElsewhere(s, s', chains', k, t);
    }
  }

  /** A terminal other than the closed one still has a waiting reader, which is not on the run queue. */
  lemma AskedElsewhere(s: State, s': State, chains': seq<seq<nat>>, k: nat, t: nat)
    requires Inv(s', chains') && Answered(s) && k < TERMINAL_MAX_COUNT && s.fg[k] == Some(t)
    requires s'.fg == s.fg[k := None] && s'.ask == s.ask && s'.reader == Remove(s.reader, t) && Guard(s', KeyWake)
    requires forall i, j :: 0 <= i < j < TERMINAL_MAX_COUNT && s.fg[i].Some? ==> s.fg[i] != s.fg[j]
    ensures !SelfMove(s', KeyWake)
  {
    hide Tied, Stacked, TasksOk, Placed, Remove;
    var j := FocusTerminal(s', chains');
    ForegroundIs(s', chains', j);
    assert Asks(s.ask, s.fg, s.reader, j);
    ReaderGone(s, t);
    OnlyThere(s', s'.focus.value);
  }

  /** The request outlives the terminal: a new shell on it heads the run queue and has the focus, and the next key would
      move it before itself, exactly when input was asked for there before. */
  lemma ReopenedTerminal(s: State, chains: seq<seq<nat>>)
    requires Inv(s, chains)
    requires FirstFree(UsedTasks(s.tasks)) < TASK_MAX_COUNT && FirstFree(s.slots) < TERMINAL_MAX_COUNT
    ensures |s.ask| == TERMINAL_MAX_COUNT && Enabled(s, Shell(true))
    ensures var s' := Step(s, Shell(true));
            Guard(s', KeyWake) && SelfMove(s', KeyWake) <==> s.ask[FirstFree(s.slots)] != 0
  {
    hide ListsOk, Tied, Stacked, Focused, Activate, NewWindow, TickStep, YieldStep, RtcReadStep, RtcInterruptStep,
         TermReadStep, Wake, HaltStep, TearDown, ProgramStep, IsPowerOfTwo;
    Sizes(s, chains);
    InvParts(s, chains);
    assert Guard(s, Tick) by { RunningTask(s, chains); }
    var t, k := FirstFree(UsedTasks(s.tasks)), FirstFree(s.slots);
    WindowFits(s.stack, s.slots, k);
    var s1 := OpenTerminal(TakeOwnerSlot(s, t), t, k, NewWindow(s.stack, k).value);
    ActivateFields(s1.(fg := s1.fg[k := Some(t)], focus := Some(t)), k);
  }

  lemma RunningTask(s: State, chains: seq<seq<nat>>)
    requires Inv(s, chains)
    ensures s.running < |s.tasks| && |s.fg| == |s.slots| == |s.ask| == TERMINAL_MAX_COUNT
  {
    hide Tied, Stacked, Focused;
    Sizes(s, chains);
    UserRuns(s);
  }

  lemma ActivateFields(s: State, k: nat)
    requires s.focus.Some? && k < |s.fg| && s.fg[k] == s.focus
    ensures Activate(s, k).(stack := s.stack) == s
  {
    hide Remove;
  }

  lemma RemovedReader(s: State, t: nat)
    ensures forall u: nat :: u in Remove(s.reader, t) ==> u in s.reader
  {
    hide Count, Remove;
    RemoveOnce(s.reader, t);
    CountIn(s.reader);
    CountIn(Remove(s.reader, t));
  }

  /** A key that completes a read while Alt and a function key are held wakes the foreground task of another terminal;
      the task that asked stays asleep, and is still asked. Unless the other task is the head of the run queue: then
      it is moved before itself. */
  lemma KeyElsewhereWakesAnother(s: State, k: nat, chains: seq<seq<nat>>)
    requires Inv(s, chains) && Answered(s) && Guard(s, KeyElsewhere(k))
    ensures var asked := s.tasks[s.focus.value].term.value;
            s.focus.value in s.reader && s.fg[k] != s.focus && asked != k && s.ask[asked] != 0
    ensures SelfMove(s, KeyElsewhere(k)) <==> s.fg[k].value == s.run[0]
    ensures s.fg[k].value != s.run[0] ==>
              var s' := Step(s, KeyElsewhere(k)); var asked := s.tasks[s.focus.value].term.value;
              s'.running == s.fg[k].value && s.focus.value in s'.reader && s'.ask[asked] == s.ask[asked]
  {
    hide Tied, Stacked, TasksOk, Placed, Launch, Remove, Refill, TaskOk;
    var j := FocusTerminal(s, chains);
    ForegroundIs(s, chains, j);
    ForegroundIs(s, chains, k);
    assert Asks(s.ask, s.fg, s.reader, j);
    UserTask(s, s.fg[k].value);
    FocusInv(s, k, chains);
    FocusFields(s, k);
    var s1 := Focus(s, k);
    WakeKeeps(s1, s.fg[k].value) by { InvParts(s1, chains); }
    WokenRuns(s1, s.fg[k].value);
    ReaderGone(s1, s.fg[k].value);
  }

  lemma WokenRuns(s: State, t: nat)
    requires t < |s.tasks| && !s.tasks[t].idle
    ensures Wake(s, t).running == t
  {
    hide Remove;
  }

  // ----- Boot reaches all of these

  lemma {:induction false} RunOn(s: State, events: seq<Event>, e: Event)
    requires CanRun(s, events) && Enabled(Run(s, events), e)
    ensures CanRun(s, events + [e]) && Run(s, events + [e]) == Step(Run(s, events), e)
    decreases |events|
  {
    hide Enabled, Step;
    if events == [] {
      assert [] + [e] == [e];
      RunOne(s, [e]);
    } else {
      assert (events + [e])[1..] == events[1..] + [e];
      RunOne(s, events);
      RunOne(s, events + [e]);
      RunOn(Step(s, events[0]), events[1..], e);
    }
  }

  lemma RunOne(s: State, events: seq<Event>)
    requires events != [] && Enabled(s, events[0])
    ensures CanRun(s, events) == CanRun(Step(s, events[0]), events[1..])
    ensures CanRun(s, events) ==> Run(s, events) == Run(Step(s, events[0]), events[1..])
    ensures |events| == 1 ==> CanRun(s, events) && Run(s, events) == Step(s, events[0])
  {
    hide Enabled, Step;
  }

  lemma FirstFreeIs(used: seq<bool>, i: nat)
    requires i < |used| && !used[i] && forall j :: 0 <= j < i ==> used[j]
    ensures FirstFree(used) == i
  {
  }

  /** A task that opened its own terminal k. */
  predicate Owner(task: Task, k: nat) {
    !task.idle && !task.kernel && task.owner && task.parent == None && task.term == Some(k)
  }

  /** Slots up to last are taken; the first three by init, the idle task and the owner of terminal 0. */
  predicate Started(s: State, last: nat) {
    && |s.tasks| == TASK_MAX_COUNT && 2 <= last <= 3 && |s.slots| == |s.fg| == |s.ask| == TERMINAL_MAX_COUNT
    && (forall t :: 0 <= t < TASK_MAX_COUNT ==> s.tasks[t].valid == (t <= last))
    && !s.tasks[0].idle && s.tasks[1].idle && Owner(s.tasks[2], 0) && s.rtc == []
  }

  /** One terminal is open; task 2 owns it, task 3 may be its child. */
  predicate OneTerminal(s: State, last: nat) {
    && Started(s, last)
    && (last == 3 ==> !s.tasks[3].idle && !s.tasks[3].kernel && !s.tasks[3].owner && s.tasks[3].parent == Some(2))
    && (last == 3 ==> s.tasks[3].term == Some(0))
    && s.fg == [Some(last), None, None, None, None] && s.slots == [true, false, false, false, false]
    && s.focus == Some(last) && s.stack == [0]
  }

  /** Only the boot tasks exist and no terminal is open. */
  predicate Booted(s: State) {
    && |s.tasks| == TASK_MAX_COUNT && (forall t :: 0 <= t < TASK_MAX_COUNT ==> s.tasks[t].valid == (t <= IDLE_TASK))
    && !s.tasks[0].idle && s.tasks[1].idle && s.run == [1, 0] && s.running == 1 && s.rtc == s.reader == s.child == []
    && s.slots == [false, false, false, false, false] && |s.ask| == TERMINAL_MAX_COUNT
    && s.fg == [None, None, None, None, None] && s.stack == []
  }

  lemma AfterBoot()
    ensures Booted(Boot())
  {
  }

  lemma AfterShell(s: State)
    requires Booted(s)
    ensures Enabled(s, Shell(true))
    ensures var s' := Step(s, Shell(true));
            OneTerminal(s', 2) && s'.run == [2, 1, 0] && s'.running == 2 && s'.reader == [] && s'.child == []
  {
    hide TickStep, YieldStep, RtcReadStep, RtcInterruptStep, TermReadStep, Wake, HaltStep, TearDown, ProgramStep,
         Launch, Refill, Ask, IsPowerOfTwo, WaitCount, Remove, CloseTerminal, RunningToLast;
    FirstFreeIs(UsedTasks(s.tasks), 2);
    FirstFreeIs(s.slots, 0);
    assert s.stack + [0] == [0];
  }

  lemma AfterProgram(s: State)
    requires OneTerminal(s, 2) && s.run == [2, 1, 0] && s.running == 2 && s.reader == [] && s.child == []
    ensures Enabled(s, Program(true))
    ensures var s' := Step(s, Program(true));
            OneTerminal(s', 3) && s'.run == [3, 1, 0] && s'.running == 3 && s'.reader == [] && s'.child == [2]
  {
    FirstFreeIs(UsedTasks(s.tasks), 3);
    assert Remove([3, 2, 1, 0], 2) == [3, 1, 0] by { RemoveSecond(3, 2, [1, 0]); }
    assert [3] + [2, 1, 0] == [3, 2, 1, 0];
  }

  lemma RemoveSecond(x: nat, y: nat, rest: seq<nat>)
    requires x != y
    ensures Remove([x, y] + rest, y) == [x] + rest
  {
    assert ([x, y] + rest)[1..] == [y] + rest;
    assert ([y] + rest)[1..] == rest;
  }

  lemma AfterRead(s: State)
    requires OneTerminal(s, 3) && s.run == [3, 1, 0] && s.running == 3 && s.reader == [] && s.child == [2]
    ensures Enabled(s, TermRead(10))
    ensures var s' := Step(s, TermRead(10));
            OneTerminal(s', 3) && s'.run == [0, 1] && s'.running == 0 && s'.reader == [3] && s'.child == [2]
            && s'.ask[0] == 10
  {
  }

  lemma AfterClose(s: State)
    requires OneTerminal(s, 3) && s.run == [0, 1] && s.running == 0 && s.reader == [3] && s.child == [2]
    requires s.ask[0] == 10
    ensures Enabled(s, CloseOther)
    ensures var s' := Step(s, CloseOther); Guard(s', KeyWake) && SelfMove(s', KeyWake)
  {
    assert Remove([0, 1], 3) == [0, 1] && Remove([2], 3) == [2] && Remove([2], 2) == [];
    assert TopTask(s) == Some(3);
    var s1 := Unlist(s, 3);
    assert s1.run == [2, 0, 1];
    assert FocusOn(s1, 0);
  }

  /** A key can move the head of the run queue before itself: a shell starts a program, the program reads, its window
      is closed while init runs, and a key completes the read. */
  lemma CloseOtherBreaksList()
    ensures exists events :: CanRun(Boot(), events) && Guard(Run(Boot(), events), KeyWake)
                             && SelfMove(Run(Boot(), events), KeyWake)
  {
    hide *;
    var s := Boot();
    NoEvents(s);
    AfterBoot();
    AfterShell(s);
    RunOn(s, [], Shell(true));
    var events := [] + [Shell(true)];
    AfterProgram(Run(s, events));
    RunOn(s, events, Program(true));
    events := events + [Program(true)];
    AfterRead(Run(s, events));
    RunOn(s, events, TermRead(10));
    events := events + [TermRead(10)];
    AfterClose(Run(s, events));
    RunOn(s, events, CloseOther);
    events := events + [CloseOther];
    assert CanRun(Boot(), events);
  }

  lemma NoEvents(s: State)
    ensures CanRun(s, []) && Run(s, []) == s
  {
  }

  lemma AfterOwnerClosed(s: State)
    requires OneTerminal(s, 2) && s.run == [0, 1] && s.running == 0 && s.reader == [2] && s.child == []
    requires s.ask[0] == 10
    ensures Enabled(s, CloseOther)
    ensures var s' := Step(s, CloseOther);
            s'.ask == s.ask && FirstFree(UsedTasks(s'.tasks)) == 2 < TASK_MAX_COUNT
            && FirstFree(s'.slots) == 0 < TERMINAL_MAX_COUNT
  {
    hide TickStep, YieldStep, RtcReadStep, RtcInterruptStep, TermReadStep, Wake, HaltStep, ShellStep, ProgramStep,
         Launch, Ask, IsPowerOfTwo, WaitCount, Remove, AnotherFrom;
    var s' := Step(s, CloseOther);
    FirstFreeIs(UsedTasks(s'.tasks), 2);
    FirstFreeIs(s'.slots, 0);
  }

  /** So can it after a new shell has opened a terminal again: a shell reads, its window is closed, and another shell
      starts. */
  lemma ReopenedBreaksList()
    ensures var events := [Shell(true), TermRead(10), CloseOther, Shell(true)];
            && CanRun(Boot(), events) && Guard(Run(Boot(), events), KeyWake)
            && SelfMove(Run(Boot(), events), KeyWake)
  {
    hide *;
    var s := Boot();
    NoEvents(s);
    AfterBoot();
    AfterShell(s);
    RunOn(s, [], Shell(true));
    var events := [] + [Shell(true)];
    AfterShellRead(Run(s, events));
    RunOn(s, events, TermRead(10));
    events := events + [TermRead(10)];
    AfterOwnerClosed(Run(s, events));
    RunOn(s, events, CloseOther);
    events := events + [CloseOther];
    BootInv();
    var chains := RunKeeps(s, events, NoChains());
    ReopenedTerminal(Run(s, events), chains);
    RunOn(s, events, Shell(true));
    events := events + [Shell(true)];
    assert events == [Shell(true), TermRead(10), CloseOther, Shell(true)];
  }

  /** Two terminals are open; task 2 owns the first and reads, task 3 owns the second, which is on top. */
  predicate TwoTerminals(s: State) {
    && Started(s, 3) && Owner(s.tasks[3], 1)
    && s.fg == [Some(2), Some(3), None, None, None] && s.stack == [1, 0] && s.child == [] && s.ask[0] == 10
  }

  lemma AfterShellRead(s: State)
    requires OneTerminal(s, 2) && s.run == [2, 1, 0] && s.running == 2 && s.reader == [] && s.child == []
    ensures Enabled(s, TermRead(10))
    ensures var s' := Step(s, TermRead(10));
            OneTerminal(s', 2) && s'.run == [0, 1] && s'.running == 0 && s'.reader == [2] && s'.child == []
            && s'.ask[0] == 10
  {
  }

  lemma AfterSecondShell(s: State)
    requires OneTerminal(s, 2) && s.run == [0, 1] && s.running == 0 && s.reader == [2] && s.child == []
    requires s.ask[0] == 10
    ensures Enabled(s, Shell(true))
    ensures var s' := Step(s, Shell(true));
            TwoTerminals(s') && s'.run == [3, 0, 1] && s'.running == 3 && s'.reader == [2] && s'.focus == Some(3)
  {
    hide TickStep, YieldStep, RtcReadStep, RtcInterruptStep, TermReadStep, Wake, HaltStep, TearDown, ProgramStep,
         Launch, Refill, Ask, IsPowerOfTwo, WaitCount;
    FirstFreeIs(UsedTasks(s.tasks), 3);
    FirstFreeIs(s.slots, 1);
    assert s.stack + [1] == [0, 1];
    assert Remove([0, 1], 1) == [0];
  }

  lemma AfterSecondRead(s: State)
    requires TwoTerminals(s) && s.run == [3, 0, 1] && s.running == 3 && s.reader == [2] && s.focus == Some(3)
    ensures Enabled(s, TermRead(10))
    ensures var s' := Step(s, TermRead(10));
            TwoTerminals(s') && s'.run == [0, 1] && s'.running == 0 && s'.reader == [3, 2] && s'.focus == Some(3)
  {
  }

  lemma AfterFocus(s: State)
    requires TwoTerminals(s) && s.running <= 3
    ensures Enabled(s, ChangeFocus(0)) && Step(s, ChangeFocus(0)) == s.(focus := Some(2))
    ensures TwoTerminals(s.(focus := Some(2)))
  {
  }

  lemma FunctionKey(s: State)
    requires TwoTerminals(s) && s.focus == Some(2) && s.running <= 3 && s.run != []
    ensures Guard(s, KeyElsewhere(1)) && s.fg[1] == Some(3)
    ensures SelfMove(s, KeyElsewhere(1)) <==> s.run[0] == 3
    ensures Enabled(s, KeyElsewhere(1)) <==> s.run[0] != 3
  {
  }

  lemma TwoShells() returns (events: seq<Event>)
    ensures CanRun(Boot(), events) && forall e :: e in events ==> Calm(e)
    ensures var s := Run(Boot(), events);
            TwoTerminals(s) && s.run == [3, 0, 1] && s.running == 3 && s.reader == [2] && s.focus == Some(3)
  {
    hide *;
    var s := Boot();
    NoEvents(s);
    AfterBoot();
    AfterShell(s);
    RunOn(s, [], Shell(true));
    events := [] + [Shell(true)];
    AfterShellRead(Run(s, events));
    RunOn(s, events, TermRead(10));
    events := events + [TermRead(10)];
    AfterSecondShell(Run(s, events));
    RunOn(s, events, Shell(true));
    events := events + [Shell(true)];
    OpensAreCalm();
  }

  lemma OpensAreCalm()
    ensures Calm(Shell(true)) && Calm(TermRead(10)) && Calm(ChangeFocus(0))
  {
  }

  /** So can a function key: a shell reads, a second shell runs, the focus goes back to the first one's window, and its
      read is completed while Alt and F2 are held. */
  lemma KeyElsewhereBreaksList()
    ensures exists events :: CanRun(Boot(), events) && Guard(Run(Boot(), events), KeyElsewhere(1))
                             && SelfMove(Run(Boot(), events), KeyElsewhere(1))
  {
    hide *;
    var events := TwoShells();
    AfterFocus(Run(Boot(), events));
    RunOn(Boot(), events, ChangeFocus(0));
    events := events + [ChangeFocus(0)];
    FunctionKey(Run(Boot(), events));
    assert CanRun(Boot(), events);
  }

  /** Task t has the focus and a read to be completed, which stays so as key e wakes u. */
  predicate WakesInstead(s: State, e: Event, t: nat, u: nat) {
    && Enabled(s, e) && s.focus == Some(t) && t != u && t in s.reader && u in s.reader
    && Step(s, e).running == u && t in Step(s, e).reader
  }

  /** If the second shell reads as well, the same key wakes it, task 3, instead of the first, task 2. */
  lemma KeyElsewhereReached()
    ensures exists events :: CanRun(Boot(), events) && WakesInstead(Run(Boot(), events), KeyElsewhere(1), 2, 3)
  {
    hide *;
    var events := TwoShells();
    AfterSecondRead(Run(Boot(), events));
    RunOn(Boot(), events, TermRead(10));
    events := events + [TermRead(10)];
    AfterFocus(Run(Boot(), events));
    RunOn(Boot(), events, ChangeFocus(0));
    events := events + [ChangeFocus(0)];
    OpensAreCalm();
    RunOffered(Boot(), events);
    CalmRunsKeepLists(events);
    BootInv();
    var chains := RunKeeps(Boot(), events, NoChains());
    var s := Run(Boot(), events);
    FunctionKey(s);
    KeyElsewhereWakesAnother(s, 1, chains);
    WakesInsteadIs(s, KeyElsewhere(1), 2, 3);
    assert CanRun(Boot(), events);
  }

  lemma WakesInsteadIs(s: State, e: Event, t: nat, u: nat)
    requires Enabled(s, e) && s.focus == Some(t) && t != u && t in s.reader && u in s.reader
    requires Step(s, e).running == u && t in Step(s, e).reader
    ensures WakesInstead(s, e, t, u)
  {
    hide Enabled, Step;
  }
}
