/** The kernel as it runs: task slots, linked task lists, terminal tables and the window array, changed in place by the
    interrupt handlers and system calls. Each method takes the same step as the state machine. */
module KernelMachine {
  import opened Common
  import opened Kernel
  import opened KernelInvariant
  import opened KernelLists
  import opened TaskList
  import opened Windows
  import Bits
  import KernelRuns
  import RtcWake

  /** How a system call ends: done, refused with -1, or in a processor fault. */
  datatype Outcome = Done | Refused | Fault

  /** The argument of an event is 32 bits wide, and a woken task takes its request back if it is on the reader list. */
  predicate Suits(s: State, e: Event, reading: bool) {
    match e
    case RtcWrite(f) => -0x8000_0000 <= f < 0x8000_0000
    case KeyWake => s.focus.Some? ==> reading == (s.focus.value in s.reader)
    case KeyElsewhere(k) => k < |s.fg| && s.fg[k].Some? ==> reading == (s.fg[k].value in s.reader)
    case _ => true
  }

  predicate SuitsRun(s: State, events: seq<Event>, reading: seq<bool>)
    requires |reading| == |events|
    decreases |events|
  {
    events == []
    || (Suits(s, events[0], reading[0])
        && (Enabled(s, events[0]) ==> SuitsRun(Step(s, events[0]), events[1..], reading[1..])))
  }

  class Machine {
    const lists: TaskLists
    const windows: WindowStack
    var tasks: seq<Task>
    var running: nat
    var slots: seq<bool>
    var ask: seq<nat>
    var fg: seq<Option<nat>>
    var focus: Option<nat>

    /** The state after boot: init has started the idle task, which runs. */
    constructor ()
      ensures Valid() && State() == Boot() && fresh(lists) && fresh(windows) && fresh(windows.win)
      ensures fresh(set n | n in lists.nodes) && fresh(set n | n in lists.heads)
    {
      hide TaskLists.Valid, WindowStack.Valid, BootTasks;
      lists := new TaskLists();
      windows := new WindowStack();
      tasks, running, focus := BootTasks(), IDLE_TASK, None;
      slots, ask, fg := [false, false, false, false, false], [0, 0, 0, 0, 0], [None, None, None, None, None];
      new;
      assert |BootTasks()| == TASK_MAX_COUNT by { BootCount(); }
      lists.Attach(INIT_TASK, RUN);
      lists.Attach(IDLE_TASK, RUN);
      assert lists.lists[RUN] == [IDLE_TASK, INIT_TASK];
    }

    ghost predicate Valid()
      reads this, lists, lists.nodes, lists.heads, windows, windows.win
    {
      lists.Valid() && |lists.lists| == LISTS && Sized()
    }

    /** Fields other than the lists have their sizes. */
    ghost predicate Sized()
      reads this, windows, windows.win
    {
      windows.Valid() && |tasks| == TASK_MAX_COUNT && |slots| == |ask| == |fg| == TERMINAL_MAX_COUNT
    }

    ghost function State(): State
      requires |lists.lists| == LISTS
      reads this, lists, windows
    {
      Kernel.State(tasks, lists.lists[RUN], lists.lists[RTC], lists.lists[READER], lists.lists[CHILD],
                   running, slots, ask, fg, focus, windows.stack)
    }

    /** sched_refill_time. */
    method RefillTime(t: nat)
      requires Valid() && t < TASK_MAX_COUNT
      modifies this`tasks
      ensures Valid() && State() == Refill(old(State()), t)
    {
      tasks := tasks[t := tasks[t].(remain := SCHED_TASK_TIME)];
    }

    /** The run queue is lost: its sentinel leads to t and t to itself. */
    ghost predicate Lost(t: nat)
      reads this, lists, lists.nodes, lists.heads, windows, windows.win
    {
      lists.Severed(RUN, t) && |lists.lists| == LISTS && Sized()
    }

    ghost predicate Adrift()
      reads this, lists, lists.nodes, lists.heads, windows, windows.win
    {
      lists.Fixed() && var t := lists.FirstSlot(RUN); Lost(t) && !tasks[t].idle
    }

    /** The idle task at the head of the run queue moves to the end unless it is alone; the new head. */
    method StepAside(t: nat) returns (toRun: nat)
      requires Valid() && lists.InFront(t, RUN) && t < TASK_MAX_COUNT && tasks[t].idle
      modifies lists`lists, lists.nodes, lists.heads
      ensures Valid() && State() == old(State()).(run := IdleLast(old(tasks), old(lists.lists)[RUN]))
      ensures lists.InFront(toRun, RUN)
    {
      hide TaskLists.Valid, WindowStack.Valid, Remove, Distinct, InSlots;
      RunIn();
      toRun := t;
      var alone := lists.Alone(t, RUN);
      if !alone {
        RotatesHead(lists.lists[RUN]);
        lists.MoveToLast(t, RUN);
        toRun := lists.First(RUN);
      }
    }

    /** sched_launch_to_current_head. On a lost run queue it launches the task that the sentinel leads to. */
    method LaunchToCurrentHead()
      requires Valid() || Adrift()
      modifies this`running, lists`lists, lists.nodes, lists.heads
      ensures old(Valid()) ==> Valid() && State() == Launch(old(State()))
      ensures !old(Valid()) ==> Lost(running) && running == old(lists.FirstSlot(RUN)) && lists.lists == old(lists.lists)
    {
      hide TaskLists.Valid, WindowStack.Valid, Distinct, InSlots, TaskLists.Severed;
      if Valid() { RunIn(); } else { LostRun(lists.FirstSlot(RUN)); }
      var none := lists.Empty(RUN);
      if none { return; }
      var toRun := lists.First(RUN);
      if tasks[toRun].idle { toRun := StepAside(toRun); }
      if running == toRun { return; }
      running := toRun;
    }

    lemma LostRun(t: nat)
      requires Lost(t)
      ensures lists.Fixed() && lists.heads[RUN].next != lists.heads[RUN] && t == lists.FirstSlot(RUN)
      ensures t < TASK_MAX_COUNT && !Valid()
    {
      hide Ring, Distinct;
      lists.NodeOther(t, if t == 0 then 1 else 0, RUN);
      if Valid() { lists.NoWayBack(RUN, t, Nodes(lists.nodes, lists.heads[RUN], lists.lists[RUN])); }
    }

    lemma RunIn()
      requires Valid()
      ensures lists.Valid() && lists.Fixed() && |lists.lists| == LISTS
      ensures InSlots(lists.lists[RUN]) && Distinct(lists.lists[RUN])
      ensures forall t: nat :: t in lists.lists[RUN] ==> t < TASK_MAX_COUNT
    {
    }

    /** sched_move_running_to_last. */
    method MoveRunningToLast()
      requires Valid() && running in lists.lists[RUN]
      modifies lists`lists, lists.nodes, lists.heads
      ensures Valid() && State() == RunningToLast(old(State()))
    {
      hide TaskLists.Valid, WindowStack.Valid, Remove, Distinct, InSlots;
      RunIn();
      var last := lists.AtEnd(running, RUN);
      if !last { lists.MoveToLast(running, RUN); }
    }

    /** sched_pit_interrupt_handler. */
    method PitInterrupt()
      requires Valid() && running in lists.lists[RUN]
      modifies this, lists`lists, lists.nodes, lists.heads
      ensures Valid() && old(State()).running < TASK_MAX_COUNT && State() == TickStep(old(State()))
    {
      hide Launch, RunningToLast, TaskLists.Valid, WindowStack.Valid, Distinct, InSlots;
      RunIn();
      if tasks[running].idle {
        MoveRunningToLast();
        LaunchToCurrentHead();
      } else {
        tasks := tasks[running := tasks[running].(remain := tasks[running].remain - SCHED_PIT_INTERVAL)];
        if tasks[running].remain <= 0 {
          RefillTime(running);
          assert tasks == old(tasks)[running := old(tasks)[running].(remain := SCHED_TASK_TIME)];
          MoveRunningToLast();
          LaunchToCurrentHead();
        }
      }
    }

    /** sched_yield_unsafe. */
    method Yield()
      requires Valid() && running in lists.lists[RUN]
      modifies this, lists`lists, lists.nodes, lists.heads
      ensures Valid() && State() == YieldStep(old(State()))
    {
      hide Launch, RunningToLast, TaskLists.Valid, WindowStack.Valid, Distinct, InSlots;
      RunIn();
      if !tasks[running].idle { RefillTime(running); }
      MoveRunningToLast();
      LaunchToCurrentHead();
    }

    // ----- Real-time clock

    /** system_rtc_open. */
    method RtcOpen()
      requires Valid() && running < TASK_MAX_COUNT
      modifies this`tasks
      ensures Valid() && State() == old(State()).(tasks := old(tasks)[running := old(tasks)[running].(freq := 2)])
    {
      tasks := tasks[running := tasks[running].(freq := 2)];
    }

    /** system_rtc_write with 4 bytes that hold f. For 0 the frequency is set before the division faults. */
    method RtcWrite(f: int) returns (outcome: Outcome)
      requires Valid() && running < TASK_MAX_COUNT && -0x8000_0000 <= f < 0x8000_0000
      modifies this`tasks
      ensures Valid() && outcome == if f == 0 then Fault else if Kernel.IsPowerOfTwo(f) then Done else Refused
      ensures outcome.Done? ==> State() == RtcSet(old(State()), f)
      ensures outcome.Refused? ==> State() == old(State())
      ensures outcome.Fault? ==>
                State() == old(State()).(tasks := old(tasks)[running := old(tasks)[running].(freq := 0)])
    {
      hide WaitCount, Kernel.IsPowerOfTwo, Bits.Pow2, TaskLists.Valid, WindowStack.Valid;
      var power := PowerOf(f);
      if power == -1 { return Refused; }
      tasks := tasks[running := tasks[running].(freq := f)];
      if f == 0 { return Fault; }
      tasks := tasks[running := tasks[running].(counter := WaitCount(f))];
      assert tasks == old(tasks)[running := old(tasks)[running].(freq := f, counter := WaitCount(f))];
      outcome := Done;
    }

    /** system_rtc_read. */
    method RtcRead() returns (ok: bool)
      requires Valid() && running in lists.lists[RUN] && running < TASK_MAX_COUNT && tasks[running].freq != 0
      modifies this, lists`lists, lists.nodes, lists.heads
      ensures Valid() && State() == RtcReadStep(old(State())) && ok == (old(tasks[running].freq) != -1)
    {
      hide Launch, WaitCount, Remove, TaskLists.Valid, TaskLists.InFront, TaskLists.Severed, WindowStack.Valid;
      RunIn();
      if tasks[running].freq == -1 { return false; }
      tasks := tasks[running := tasks[running].(counter := WaitCount(tasks[running].freq))];
      lists.NotInFront(running, RUN, RTC);
      lists.MoveToFront(running, RUN, RTC);
      LaunchToCurrentHead();
      ok := true;
    }

    /** One turn of the loop in rtc_interrupt_handler. */
    method VisitWaiting(t: nat) returns (woken: bool)
      requires Valid() && t in lists.lists[RTC] && t < TASK_MAX_COUNT
      modifies this`tasks, lists`lists, lists.nodes, lists.heads
      ensures Valid() && State() == RtcVisit(old(State()), t) && woken == Due(CountDown(old(tasks), t), t)
    {
      hide Remove, TaskLists.Valid, TaskLists.InFront, TaskLists.Severed, WindowStack.Valid;
      RunIn();
      tasks := tasks[t := tasks[t].(counter := tasks[t].counter - 1)];
      woken := tasks[t].counter == 0;
      if woken {
        RefillTime(t);
        lists.NotInFront(t, RTC, RUN);
        lists.MoveToFront(t, RTC, RUN);
      }
    }

    ghost function NodeOr(waiting: seq<nat>): ListNode
      requires lists.Fixed() && InSlots(waiting)
    {
      if waiting == [] then lists.heads[RTC] else lists.nodes[waiting[0]]
    }

    /** Pointers at the first task still to be visited. */
    lemma Waiting(done: seq<nat>, waiting: seq<nat>)
      requires Valid() && lists.lists[RTC] == done + waiting
      ensures InSlots(waiting) && (waiting != [] ==> InSlots(waiting[1..]))
      ensures waiting != [] ==> waiting[0] in lists.lists[RTC] && waiting[0] < TASK_MAX_COUNT
      ensures waiting != [] ==>
                var n := NodeOr(waiting);
                n != lists.heads[RTC] && n.slot == waiting[0] && n.next == NodeOr(waiting[1..])
      ensures done == [] ==> lists.heads[RTC].next == NodeOr(waiting)
      ensures waiting != [] ==> waiting[0] !in done
      ensures waiting == [] ==> NodeOr(waiting) == lists.heads[RTC]
    {
      hide Ring;
      var s := lists.lists[RTC];
      SpreadAll(lists.lists);
      assert forall i :: 0 <= i < |waiting| ==> waiting[i] == s[|done| + i];
      if waiting != [] {
        lists.NextAt(RTC, |done|);
        assert s[|done|] == waiting[0];
        if |waiting| > 1 { assert s[|done| + 1] == waiting[1]; }
        assert forall i :: 0 <= i < |done| ==> done[i] == s[i];
      } else if done == [] {
        NoNode();
      }
    }

    lemma NoNode()
      requires Valid() && lists.lists[RTC] == []
      ensures lists.heads[RTC].next == lists.heads[RTC]
    {
      var c := Nodes(lists.nodes, lists.heads[RTC], lists.lists[RTC]);
      assert Linked(c, 0);
    }

    /** rtc_interrupt_handler: the next node is read before the current one may be moved. */
    method RtcInterrupt()
      requires Valid()
      modifies this, lists`lists, lists.nodes, lists.heads
      ensures Valid() && State() == RtcInterruptStep(old(State()))
    {
      hide Launch, Lost, Adrift, TaskLists.FirstSlot, TaskLists.InFront, TaskLists.Severed,
           Remove, RtcVisit, RtcVisits, Distinct, InSlots, TaskLists.Valid, WindowStack.Valid, NodeOr;
      RunIn();
      var wakeCount := 0;
      ghost var s0 := State();
      ghost var done: seq<nat>, waiting: seq<nat> := [], lists.lists[RTC];
      Waiting(done, waiting);
      var node := lists.heads[RTC].next;
      var temp := node.next;
      while node != lists.heads[RTC]
        invariant Valid() && |lists.lists| == LISTS && lists.lists[RTC] == done + waiting
        invariant RtcVisits(State(), waiting) == RtcVisits(s0, s0.rtc)
        invariant |lists.lists[RTC]| + wakeCount == |s0.rtc|
        invariant InSlots(waiting) && node == NodeOr(waiting)
        invariant waiting != [] ==> InSlots(waiting[1..]) && temp == NodeOr(waiting[1..])
        decreases |waiting|
      {
        Waiting(done, waiting);
        var task := node.slot;
        ghost var rest := waiting[1..];
        FirstWaiting(done, waiting);
        VisitedList(State(), done, task, rest);
        UnfoldVisits(State(), waiting);
        var woken := VisitWaiting(task);
        if woken {
          wakeCount := wakeCount + 1;
        } else {
          done := done + [task];
        }
        waiting := rest;
        RunIn();
        Waiting(done, waiting);
        node := temp;
        temp := node.next;
      }
      Waiting(done, waiting);
      UnfoldVisits(State(), waiting);
      if wakeCount > 0 { LaunchToCurrentHead(); }
    }

    // ----- Terminals

    /** Sets user_ask_len, one byte, of the terminal of t. */
    method AskFor(t: nat, n: int)
      requires Valid() && t < TASK_MAX_COUNT
      modifies this`ask
      ensures Valid() && State() == Ask(old(State()), t, n)
    {
      var term := tasks[t].term;
      if term.Some? && term.value < TERMINAL_MAX_COUNT { ask := ask[term.value := n % 256]; }
    }

    /** system_terminal_read up to where the task, whose input is not there yet, goes to sleep. */
    method TermRead(n: int)
      requires Valid() && running in lists.lists[RUN] && running < TASK_MAX_COUNT
      modifies this, lists`lists, lists.nodes, lists.heads
      ensures Valid() && State() == TermReadStep(old(State()), n)
    {
      hide Launch, Remove, Ask, TaskLists.Valid, TaskLists.InFront, TaskLists.Severed, WindowStack.Valid;
      RunIn();
      AskFor(running, if n > KEYBOARD_BUF_SIZE then KEYBOARD_BUF_SIZE else n);
      AskFields(old(State()), running, if n > KEYBOARD_BUF_SIZE then KEYBOARD_BUF_SIZE else n);
      lists.NotInFront(running, RUN, READER);
      lists.MoveToFront(running, RUN, READER);
      LaunchToCurrentHead();
    }

    /** sched_insert_to_head_unsafe of t, which is on list l. If it heads the run queue already, that is lost. */
    method InsertToHead(t: nat, ghost l: nat)
      requires Valid() && t < TASK_MAX_COUNT && l < LISTS && t in lists.lists[l]
      modifies lists`lists, lists.nodes, lists.heads
      ensures !old(lists.InFront(t, RUN)) ==> Valid() && State() == ToHead(old(State()), t)
      ensures old(lists.InFront(t, RUN)) ==> Lost(t) && State() == old(State()) && l == RUN
    {
      hide Remove, TaskLists.Valid, WindowStack.Valid, TaskLists.Severed;
      ElsewhereNot(t, l);
      if lists.InFront(t, RUN) { lists.FrontIs(t, l, RUN); }
      lists.MoveToFront(t, l, RUN);
    }

    /** The end of handle_scan_code: t, on list l, goes to the head of the run queue and runs. If it was put to sleep by
        system_terminal_read it goes on there, and takes its request back. If it heads the run queue already it runs as
        well, but no cycle leads back to the sentinel from it. */
    method WakeUp(t: nat, ghost l: nat, reading: bool)
      requires Valid() && t < TASK_MAX_COUNT && l < LISTS && t in lists.lists[l]
      requires lists.InFront(t, RUN) ==> !tasks[t].idle
      requires reading == (l == READER)
      modifies this, lists`lists, lists.nodes, lists.heads
      ensures !old(lists.InFront(t, RUN)) ==> Valid() && State() == Wake(old(State()), t)
      ensures old(lists.InFront(t, RUN)) ==> Lost(t) && State() == Refill(old(State()), t).(running := t)
      ensures old(lists.InFront(t, RUN)) ==> forall d: seq<ListNode> :: lists.heads[RUN] in d ==> !Ring(d)
    {
      hide Launch, Remove, Ask, ToHead, TaskLists.Valid, TaskLists.Severed, WindowStack.Valid;
      ghost var s, front := State(), lists.InFront(t, RUN);
      OnReader(t, l);
      RefillTime(t);
      InsertToHead(t, l);
      if front { LostRun(t); }
      LaunchToCurrentHead();
      if reading { AskFor(t, 0); }
      if front { NoRunRing(t); } else { WakeIs(s, t); }
    }

    /** t, on list l, is on the reader list only if that is l. */
    lemma OnReader(t: nat, l: nat)
      requires Valid() && l < LISTS && t in lists.lists[l]
      ensures (t in lists.lists[READER]) == (l == READER)
    {
      hide Remove;
      ElsewhereNot(t, l);
    }

    lemma NoRunRing(t: nat)
      requires Lost(t)
      ensures forall d: seq<ListNode> :: lists.heads[RUN] in d ==> !Ring(d)
    {
      hide Ring, TaskLists.Severed;
      LostRun(t);
      forall d: seq<ListNode> | lists.heads[RUN] in d ensures !Ring(d) { lists.NoWayBack(RUN, t, d); }
    }

    /** A task on one list is not on the others, and not affected when taken off them. */
    lemma ElsewhereNot(t: nat, l: nat)
      requires Valid() && l < LISTS && t in lists.lists[l]
      ensures |lists.lists| == LISTS
      ensures forall k :: 0 <= k < LISTS && k != l ==>
              t !in lists.lists[k] && Remove(lists.lists[k], t) == lists.lists[k]
    {
      forall k | 0 <= k < LISTS && k != l ensures t !in lists.lists[k] && Remove(lists.lists[k], t) == lists.lists[k] {
        assert NoShare(lists.lists[l], lists.lists[k]);
        RemoveNone(lists.lists[k], t);
      }
    }

    /** task_change_focus. */
    method ChangeFocus(id: int)
      requires Valid()
      modifies this`focus
      ensures Valid() && State() == Focus(old(State()), id)
    {
      if id < 0 || id >= TERMINAL_MAX_COUNT { return; }
      if fg[id] == None { return; }
      focus := fg[id];
    }

    /** gui_activate_window. */
    method ActivateWindow(k: nat)
      requires Valid() && k < TERMINAL_MAX_COUNT
      modifies this`focus, windows`stack, windows.win
      ensures Valid() && State() == Activate(old(State()), k)
    {
      hide Remove, TaskLists.Valid, WindowStack.Valid, Focus;
      var moved := windows.Raise(k);
      if moved { ChangeFocus(k); }
    }

    /** get_another_term_id: the next terminal below with a foreground task, around to the top; -1 if there is none. */
    method GetAnotherTermId(start: nat) returns (id: int)
      requires Valid() && start < TERMINAL_MAX_COUNT
      ensures id == if AnotherFrom(fg, start, 1).Some? then AnotherFrom(fg, start, 1).value else -1
    {
      var i := 1;
      while i < TERMINAL_MAX_COUNT
        invariant 1 <= i <= TERMINAL_MAX_COUNT && AnotherFrom(fg, start, 1) == AnotherFrom(fg, start, i)
      {
        id := (start - i + TERMINAL_MAX_COUNT) % TERMINAL_MAX_COUNT;
        if fg[id] != None { return; }
        i := i + 1;
      }
      id := -1;
    }

    // ----- execute and halt

    /** The search in task_allocate_new_slot: the first free task slot, the number of slots if there is none. */
    method FindTaskSlot() returns (t: nat)
      requires Valid()
      ensures t == FirstFree(UsedTasks(tasks)) <= TASK_MAX_COUNT
    {
      t := 0;
      while t < TASK_MAX_COUNT
        invariant t <= TASK_MAX_COUNT && forall u :: 0 <= u < t ==> tasks[u].valid
      {
        if !tasks[t].valid { break; }
        t := t + 1;
      }
      assert forall u :: 0 <= u < t ==> UsedTasks(tasks)[u];
      assert t < TASK_MAX_COUNT ==> !UsedTasks(tasks)[t];
    }

    /** The search in terminal_allocate. */
    method FindTerminalSlot() returns (k: nat)
      requires Valid()
      ensures k == FirstFree(slots) <= TERMINAL_MAX_COUNT
    {
      k := 0;
      while k < TERMINAL_MAX_COUNT
        invariant k <= TERMINAL_MAX_COUNT && forall j :: 0 <= j < k ==> slots[j]
      {
        if !slots[k] { break; }
        k := k + 1;
      }
    }

    /** task_deallocate. */
    method DeallocateTask(t: nat)
      requires Valid() && t < TASK_MAX_COUNT
      modifies this`tasks
      ensures Valid() && State() == Free(old(State()), t)
    {
      tasks := tasks[t := tasks[t].(valid := false)];
    }

    /** Phase 3 of system_execute for a task in slot t. */
    method StartTask(t: nat)
      requires Valid() && t < TASK_MAX_COUNT && forall l :: 0 <= l < LISTS ==> t !in lists.lists[l]
      modifies this, lists`lists, lists.nodes, lists.heads
      ensures Valid() && State() == Start(old(State()), t)
      ensures lists.lists == old(lists.lists)[RUN := [t] + old(lists.lists)[RUN]]
    {
      hide TaskLists.Valid, WindowStack.Valid;
      RunIn();
      tasks := tasks[t := tasks[t].(remain := SCHED_TASK_TIME, freq := -1)];
      lists.Attach(t, RUN);
      running := t;
    }

    /** The task in slot t becomes the foreground task of terminal k, gets the focus, and starts. */
    method BringForward(t: nat, k: nat)
      requires Valid() && t < TASK_MAX_COUNT && k < TERMINAL_MAX_COUNT
      requires forall l :: 0 <= l < LISTS ==> t !in lists.lists[l]
      modifies this, lists`lists, lists.nodes, lists.heads, windows`stack, windows.win
      ensures Valid() && State() == Start(Activate(old(State()).(fg := old(fg)[k := Some(t)], focus := Some(t)), k), t)
      ensures lists.lists == old(lists.lists)[RUN := [t] + old(lists.lists)[RUN]]
    {
      hide Remove, Start, Activate, TaskLists.Valid, WindowStack.Valid;
      fg := fg[k := Some(t)];
      focus := Some(t);
      ActivateWindow(k);
      StartTask(t);
    }

    lemma FreeUnlisted(t: nat)
      requires Valid() && Placed(State()) && t < TASK_MAX_COUNT && !tasks[t].valid
      ensures |lists.lists| == LISTS && forall l :: 0 <= l < LISTS ==> t !in lists.lists[l]
    {
      hide Count;
      var s := State();
      CountIn(s.run);
      CountIn(s.rtc);
      CountIn(s.reader);
      CountIn(s.child);
      assert OnLists(s, t) == 0;
    }

    /** Terminal and window for the task in slot t. */
    method OpenTerminalFor(t: nat) returns (k: nat, ok: bool)
      requires Valid() && t < TASK_MAX_COUNT
      modifies this`tasks, this`slots, windows`stack, windows.win
      ensures Valid() && k == FirstFree(old(slots))
      ensures ok == (k < TERMINAL_MAX_COUNT && NewWindow(old(windows.stack), k).Some?)
      ensures State() == if !ok then old(State())
                         else OpenTerminal(old(State()), t, k, NewWindow(old(windows.stack), k).value)
    {
      hide NewWindow, TaskLists.Valid, WindowStack.Valid;
      k := FindTerminalSlot();
      if k == TERMINAL_MAX_COUNT { return k, false; }
      ok := windows.New(k);
      if !ok { return; }
      slots := slots[k := true];
      tasks := tasks[t := tasks[t].(term := Some(k))];
    }

    /** The cleanup of system_execute when the program cannot be loaded. */
    method RollBack(t: nat, k: nat)
      requires Valid() && t < TASK_MAX_COUNT && k < TERMINAL_MAX_COUNT
      modifies this`tasks, this`slots, windows`stack, windows.win
      ensures Valid() && State() == CloseTerminal(old(State()), t, k)
    {
      hide Remove, TaskLists.Valid, WindowStack.Valid;
      var _ := windows.Destroy(k);
      slots := slots[k := false];
      DeallocateTask(t);
    }

    /** system_execute("shell", 0, 1, NULL). loads tells whether the program can be loaded. */
    method ExecuteShell(loads: bool)
      requires Valid() && Placed(State())
      modifies this, lists`lists, lists.nodes, lists.heads, windows`stack, windows.win
      ensures Valid() && State() == ShellStep(old(State()), loads)
    {
      hide Remove, Start, Activate, Placed, NewWindow, UsedTasks, OpenTerminal, CloseTerminal, TaskLists.Valid,
           WindowStack.Valid;
      var t := FindTaskSlot();
      if t == TASK_MAX_COUNT { return; }
      SlotFree(t);
      FreeUnlisted(t);
      tasks := tasks[t := tasks[t].(valid := true, kernel := false, idle := false, owner := true, parent := None)];
      assert State() == TakeOwnerSlot(old(State()), t);
      var k, ok := OpenTerminalFor(t);
      if !ok {
        DeallocateTask(t);
      } else if !loads {
        RollBack(t, k);
      } else {
        BringForward(t, k);
      }
    }

    lemma SlotFree(t: nat)
      requires Valid() && t == FirstFree(UsedTasks(tasks)) && t < TASK_MAX_COUNT
      ensures !tasks[t].valid
    {
    }

    /** system_execute(command, 1, 0, NULL), called by the running task. */
    method ExecuteProgram(loads: bool)
      requires Valid() && Placed(State()) && running in lists.lists[RUN] && running < TASK_MAX_COUNT
      requires tasks[running].valid
      requires tasks[running].term.Some? && tasks[running].term.value < TERMINAL_MAX_COUNT
      modifies this, lists`lists, lists.nodes, lists.heads, windows`stack, windows.win
      ensures Valid() && State() == ProgramStep(old(State()), loads)
    {
      hide Remove, Start, Activate, Placed, UsedTasks, TaskLists.Valid, TaskLists.InFront, TaskLists.Severed,
           WindowStack.Valid;
      RunIn();
      var t := FindTaskSlot();
      if t == TASK_MAX_COUNT { return; }
      SlotFree(t);
      FreeUnlisted(t);
      var parent, k := running, tasks[running].term.value;
      tasks := tasks[t := tasks[t].(valid := true, kernel := false, idle := false, owner := false,
                                    parent := Some(parent), term := Some(k))];
      assert State() == TakeSlot(old(State()), t, k);
      if !loads {
        DeallocateTask(t);
        return;
      }
      BringForward(t, k);
      StartedRun(old(lists.lists)[RUN], t, parent);
      assert parent in lists.lists[RUN];
      lists.NotInFront(parent, RUN, CHILD);
      lists.MoveToFront(parent, RUN, CHILD);
    }

    /** tear_down_task: t, on list l, leaves it, and its parent comes back to the run queue. */
    method UnlistTask(t: nat, ghost l: nat)
      requires Valid() && t < TASK_MAX_COUNT && l < CHILD && t in lists.lists[l]
      requires tasks[t].parent.Some? ==>
               tasks[t].parent.value in lists.lists[CHILD] && tasks[t].parent.value < TASK_MAX_COUNT
      modifies this`tasks, lists`lists, lists.nodes, lists.heads
      ensures Valid() && State() == Unlist(old(State()), t)
    {
      hide Remove, TaskLists.Valid, TaskLists.InFront, TaskLists.Severed, WindowStack.Valid;
      var parent := tasks[t].parent;
      RunIn();
      ElsewhereNot(t, l);
      lists.Detach(t, l);
      if parent.Some? {
        RefillTime(parent.value);
        lists.NotInFront(parent.value, CHILD, RUN);
        lists.MoveToFront(parent.value, CHILD, RUN);
      }
    }

    /** tear_down_task: the terminal of t is closed, or given back to its parent. */
    method UntieTask(t: nat)
      requires Valid() && Tearable(State(), t) && focus.Some? && focus.value < TASK_MAX_COUNT
      modifies this, windows`stack, windows.win
      ensures Valid() && State() == Untie(old(State()), t)
    {
      hide Remove, TaskLists.Valid, WindowStack.Valid, AnotherFrom;
      var parent, k := tasks[t].parent, tasks[t].term.value;
      if tasks[t].owner {
        var focused := tasks[focus.value].term == Some(k);
        fg := fg[k := None];
        if focused {
          var other := GetAnotherTermId(k);
          AnotherTerminal(fg, k);
          focus := if other == -1 then None else fg[other];
        }
        var _ := windows.Destroy(k);
        slots := slots[k := false];
      } else if parent.Some? {
        var focused := tasks[focus.value].term == Some(k);
        fg := fg[k := parent];
        if focused { focus := parent; }
      }
    }

    /** tear_down_task, for a foreground task t, which is on list l. */
    method TearDownTask(t: nat, ghost l: nat)
      requires Valid() && Tearable(State(), t) && l < CHILD && t in lists.lists[l]
      requires tasks[t].parent.Some? ==>
               tasks[t].parent.value in lists.lists[CHILD] && tasks[t].parent.value < TASK_MAX_COUNT
      requires focus.Some? && focus.value < TASK_MAX_COUNT
      modifies this, lists`lists, lists.nodes, lists.heads, windows`stack, windows.win
      ensures Valid() && State() == TearDown(old(State()), t)
    {
      hide Remove, TaskLists.Valid, WindowStack.Valid, TearDown, Unlist, Untie;
      TearDownIs(State(), t);
      UnlistTask(t, l);
      UntieTask(t);
      DeallocateTask(t);
    }

    /** system_halt, called by the running task. */
    method Halt()
      requires Valid() && Tearable(State(), running) && running in lists.lists[RUN]
      requires tasks[running].parent.Some? ==>
               tasks[running].parent.value in lists.lists[CHILD] && tasks[running].parent.value < TASK_MAX_COUNT
      requires focus.Some? && focus.value < TASK_MAX_COUNT
      modifies this, lists`lists, lists.nodes, lists.heads, windows`stack, windows.win
      ensures Valid() && State() == HaltStep(old(State()))
    {
      hide Launch, TearDown, TaskLists.Valid, WindowStack.Valid;
      var parent := tasks[running].parent;
      TearDownTask(running, RUN);
      if parent.Some? { running := parent.value; } else { LaunchToCurrentHead(); }
    }

    // ----- Every event

    /** The list that a live task is on. */
    lemma WhichList(t: nat) returns (l: nat)
      requires Valid() && Placed(State()) && Live(tasks, t)
      ensures |lists.lists| == LISTS && l < LISTS && t in lists.lists[l]
      ensures (t in lists.lists[READER]) == (l == READER) && (t in lists.lists[CHILD]) == (l == CHILD)
    {
      hide Count;
      var s := State();
      CountIn(s.run);
      CountIn(s.rtc);
      CountIn(s.reader);
      CountIn(s.child);
      assert OnLists(s, t) == 1;
      l := if t in s.run then RUN else if t in s.rtc then RTC else if t in s.reader then READER else CHILD;
    }

    /** What the invariant says of the running task. */
    lemma Runs(chains: seq<seq<nat>>)
      requires Valid() && Inv(State(), chains)
      ensures |lists.lists| == LISTS && running in lists.lists[RUN] && Live(tasks, running)
      ensures running < TASK_MAX_COUNT && Placed(State())
      ensures !tasks[running].kernel ==>
              Foremost(running, chains) && running !in lists.lists[CHILD] && running !in lists.lists[READER]
    {
      hide Tied, Stacked, Focused;
      UserRuns(State());
      if !tasks[running].kernel {
        Foreground(State(), chains, running);
      }
    }

    /** t is the foreground task of its terminal. */
    ghost predicate Foremost(t: nat, chains: seq<seq<nat>>)
      requires Valid()
      reads this, lists, lists.nodes, lists.heads, windows, windows.win
    {
      && t < |tasks| && tasks[t].term.Some? && tasks[t].term.value < TERMINAL_MAX_COUNT
      && fg[tasks[t].term.value] == Some(t)
    }

    /** What it says of a foreground task. */
    lemma ForegroundTask(k: nat, chains: seq<seq<nat>>)
      requires Valid() && Inv(State(), chains) && k < TERMINAL_MAX_COUNT && fg[k].Some?
      ensures var t := fg[k].value;
              && Live(tasks, t) && t < TASK_MAX_COUNT && !tasks[t].idle && t !in lists.lists[CHILD]
              && Tearable(State(), t) && tasks[t].term == Some(k)
              && (tasks[t].parent.Some? ==>
                  tasks[t].parent.value in lists.lists[CHILD] && tasks[t].parent.value < TASK_MAX_COUNT)
      ensures focus.Some? && focus.value < TASK_MAX_COUNT
    {
      hide Stacked, ListsOk, Tied, Focused;
      var s := State();
      ForegroundIs(s, chains, k);
      ParentIs(s, chains, k);
      KernelRuns.UserTask(s, fg[k].value);
      if tasks[fg[k].value].parent.Some? { ChildIn(tasks[fg[k].value].parent.value, chains); }
      FocusIn(k, chains);
    }

    lemma ChildIn(p: nat, chains: seq<seq<nat>>)
      requires Valid() && Inv(State(), chains) && p in lists.lists[CHILD]
      ensures p < TASK_MAX_COUNT
    {
      hide Tied, Stacked, Focused, TasksOk, Placed;
      OnlyThere(State(), p);
    }

    lemma FocusIn(k: nat, chains: seq<seq<nat>>)
      requires Valid() && Inv(State(), chains) && k < TERMINAL_MAX_COUNT && fg[k].Some?
      ensures focus.Some? && focus.value < TASK_MAX_COUNT
    {
      hide Stacked, ListsOk, Tied;
      var j := KernelRuns.FocusTerminal(State(), chains);
      ForegroundIs(State(), chains, j);
    }

    /** A key that completes a read, perhaps after it has changed the focus. */
    method HandleKey(e: Event, reading: bool, ghost chains: seq<seq<nat>>)
      requires Valid() && Inv(State(), chains) && Guard(State(), e) && Suits(State(), e, reading)
      requires e.KeyWake? || e.KeyElsewhere?
      modifies this, lists`lists, lists.nodes, lists.heads
      ensures old(Enabled(State(), e)) ==> Valid() && State() == Step(old(State()), e)
      ensures old(SelfMove(State(), e)) ==> Lost(running) && State() == SelfMoved(old(State()), e)
      ensures old(SelfMove(State(), e)) ==> forall d: seq<ListNode> :: lists.heads[RUN] in d ==> !Ring(d)
    {
      hide Inv, Wake, Remove, Refill, Lost, TaskLists.Valid, WindowStack.Valid;
      Runs(chains);
      ghost var j: nat;
      if e.KeyWake? { j := KernelRuns.FocusTerminal(State(), chains); } else { j := e.k; }
      ForegroundTask(j, chains);
      if e.KeyElsewhere? { ChangeFocus(e.k); }
      ghost var l := WhichList(focus.value);
      WakeUp(focus.value, l, reading);
    }

    /** Every event takes the machine where the step of the state machine goes, unless it moves the head of the run
        queue before itself: then that task runs, but no cycle leads back to the sentinel from it. reading tells
        whether the task a key wakes sleeps in system_terminal_read. */
    method Handle(e: Event, reading: bool, ghost chains: seq<seq<nat>>)
      requires Valid() && Inv(State(), chains) && Guard(State(), e) && Suits(State(), e, reading)
      modifies this, lists`lists, lists.nodes, lists.heads, windows`stack, windows.win
      ensures old(Enabled(State(), e)) ==> Valid() && State() == Step(old(State()), e)
      ensures old(SelfMove(State(), e)) ==> Lost(running) && State() == SelfMoved(old(State()), e)
      ensures old(SelfMove(State(), e)) ==> forall d: seq<ListNode> :: lists.heads[RUN] in d ==> !Ring(d)
    {
      hide Inv, Launch, Remove, Ask, Wake, Focus, Activate, TickStep, YieldStep, RtcSet, RtcReadStep,
           RtcInterruptStep, TermReadStep,
        ShellStep, ProgramStep, HaltStep, TearDown, TaskLists.Valid, WindowStack.Valid, Placed, Refill;
      Runs(chains);
      match e
      case Tick => PitInterrupt();
      case Yield => Yield();
      case RtcOpen => RtcOpen();
      case RtcWrite(f) => var _ := RtcWrite(f);
      case RtcRead => var _ := RtcRead();
      case RtcInterrupt => RtcInterrupt();
      case TermRead(n) => TermRead(n);
      case ReadNow => AskFor(running, 0);
      case KeyWake => HandleKey(e, reading, chains);
      case KeyElsewhere(_) => HandleKey(e, reading, chains);
      case Shell(loads) => ExecuteShell(loads);
      case Program(loads) => ExecuteProgram(loads);
      case Halt =>
        ForegroundTask(tasks[running].term.value, chains);
        Halt();
      case CloseOther =>
        TopWindow();
        var top := windows.win[0];
        ForegroundTask(top.value, chains);
        ghost var l := WhichList(fg[top.value].value);
        TearDownTask(fg[top.value].value, l);
      case ChangeFocus(id) => ChangeFocus(id);
      case PressWindow(i) =>
        WindowAt(0, chains);
        if i != 0 && i < GUI_MAX_WINDOW_NUM {
          WindowAt(i, chains);
          var win := windows.win[i];
          if win.Some? { ActivateWindow(win.value); }
        }
    }

    lemma FourLists()
      requires Valid()
      ensures |lists.lists| == LISTS
    {
    }

    /** One event after the other: the machine goes where the run of the state machine goes. */
    method HandleAll(events: seq<Event>, reading: seq<bool>, ghost chains: seq<seq<nat>>)
      requires Valid() && Inv(State(), chains) && CanRun(State(), events)
      requires |reading| == |events| && SuitsRun(State(), events, reading)
      modifies this, lists`lists, lists.nodes, lists.heads, windows`stack, windows.win
      ensures Valid() && State() == Run(old(State()), events)
    {
      hide *;
      FourLists();
      ghost var s, known := State(), chains;
      assert events[0..] == events && reading[0..] == reading;
      for i := 0 to |events|
        invariant |reading| == |events| && Valid() && |lists.lists| == LISTS && Inv(State(), known)
        invariant CanRun(State(), events[i..]) && Run(State(), events[i..]) == Run(s, events)
        invariant SuitsRun(State(), events[i..], reading[i..])
      {
        ghost var s1, rest := State(), events[i..];
        Unroll(s1, rest, reading[i..]);
        ghost var next := KernelRuns.StepKeeps(s1, rest[0], known);
        Handle(events[i], reading[i], known);
        known := next;
        assert rest[1..] == events[i + 1..] && reading[i..][1..] == reading[i + 1..];
        FourLists();
      }
      Unroll(State(), [], []);
    }

    lemma TopWindow()
      requires Valid() && TopTask(State()).Some?
      ensures windows.win.Length == GUI_MAX_WINDOW_NUM && windows.win[0] == Some(windows.stack[0])
      ensures windows.stack[0] < TERMINAL_MAX_COUNT
      ensures windows.stack != [] && fg[windows.stack[0]] == TopTask(State())
    {
      assert windows.win[..][0] == Some(windows.stack[0]);
    }

    lemma WindowAt(i: nat, chains: seq<seq<nat>>)
      requires Valid() && Inv(State(), chains) && i < GUI_MAX_WINDOW_NUM
      ensures windows.win.Length == GUI_MAX_WINDOW_NUM
      ensures windows.win[i] == if i < |windows.stack| then Some(windows.stack[i]) else None
      ensures i < |windows.stack| ==> windows.stack[i] < TERMINAL_MAX_COUNT
      ensures |windows.stack| <= GUI_MAX_WINDOW_NUM
    {
      hide ListsOk, Tied, Focused, Count;
      assert windows.win[..][i] == windows.win[i];
      if i < |windows.stack| {
        CountIn(windows.stack);
        assert windows.stack[i] in windows.stack;
        assert Open(slots, windows.stack[i]);
      }
    }
  }

  lemma Unroll(s: State, events: seq<Event>, reading: seq<bool>)
    requires CanRun(s, events) && |reading| == |events| && SuitsRun(s, events, reading)
    ensures events == [] ==> Run(s, events) == s
    ensures events != [] ==> Enabled(s, events[0]) && CanRun(Step(s, events[0]), events[1..])
    ensures events != [] ==> Guard(s, events[0]) && Suits(s, events[0], reading[0])
    ensures events != [] ==> Run(s, events) == Run(Step(s, events[0]), events[1..])
    ensures events != [] ==> SuitsRun(Step(s, events[0]), events[1..], reading[1..])
  {
    hide Guard, Step, Suits;
  }

  /** From boot the machine takes every run that is offered and safe, and ends where the state machine does. */
  method Simulate(events: seq<Event>, reading: seq<bool>) returns (m: Machine)
    requires KernelRuns.Offered(Boot(), events) && KernelRuns.Safe(Boot(), events)
    requires |reading| == |events| && SuitsRun(Boot(), events, reading)
    ensures CanRun(Boot(), events) && m.Valid() && m.State() == Run(Boot(), events)
  {
    hide *;
    m := new Machine();
    KernelRuns.SafeRunsKeepLists(events);
    KernelRuns.BootInv();
    m.HandleAll(events, reading, KernelRuns.NoChains());
  }

  /** t at the head of the run queue, and on no other list. */
  function ToHead(s: State, t: nat): State {
    s.(run := [t] + Remove(s.run, t), rtc := Remove(s.rtc, t), reader := Remove(s.reader, t),
       child := Remove(s.child, t))
  }

  lemma WakeIs(s: State, t: nat)
    ensures var s1 := Launch(ToHead(Refill(s, t), t)); Wake(s, t) == if t in s.reader then Ask(s1, t, 0) else s1
  {
    hide Launch, Remove, Ask;
    var s1 := Refill(s, t);
    assert s1.run == s.run && s1.rtc == s.rtc && s1.reader == s.reader && s1.child == s.child;
  }

  lemma AskFields(s: State, t: nat, n: int)
    ensures Ask(s, t, n).(ask := s.ask) == s
  {
  }

  lemma StartedRun(run: seq<nat>, t: nat, p: nat)
    requires p in run
    ensures p in [t] + run
  {
  }

  lemma TearDownIs(s: State, t: nat)
    requires Tearable(s, t)
    ensures Unlist(s, t).focus == s.focus
    ensures Tearable(Unlist(s, t), t) && TearDown(s, t) == Free(Untie(Unlist(s, t), t), t)
  {
    hide Remove, AnotherFrom, FocusOn;
  }

  /** The list after one visit. */
  lemma VisitedList(s: State, done: seq<nat>, t: nat, rest: seq<nat>)
    requires s.rtc == done + [t] + rest && t !in done
    ensures RtcVisit(s, t).rtc == if Due(CountDown(s.tasks, t), t) then done + rest else s.rtc
  {
    hide Remove;
    RtcWake.RemoveMiddle(done, t, rest);
  }

  lemma FirstWaiting(done: seq<nat>, waiting: seq<nat>)
    requires waiting != []
    ensures done + waiting == done + [waiting[0]] + waiting[1..]
    ensures |done + waiting| == |done + waiting[1..]| + 1
  {
  }

  lemma UnfoldVisits(s: State, waiting: seq<nat>)
    ensures waiting == [] ==> RtcVisits(s, waiting) == s
    ensures waiting != [] ==> RtcVisits(s, waiting) == RtcVisits(RtcVisit(s, waiting[0]), waiting[1..])
  {
    hide RtcVisit;
  }

  /** is_power_of_two: the exponent, or -1 for a number that as an unsigned one is no power of two; 0 passes for 1. */
  method PowerOf(input: int) returns (power: int)
    requires -0x8000_0000 <= input < 0x8000_0000
    ensures power == -1 <==> !Kernel.IsPowerOfTwo(input)
    ensures input == 0 ==> power == 0
    ensures power >= -1 && (power >= 0 && input != 0 ==> input % 0x1_0000_0000 == Bits.Pow2(power))
  {
    hide Multiple, Bits.Pow2;
    power := 0;
    var unsigned := if input < 0 then input + 0x1_0000_0000 else input;
    var remainder := unsigned;
    Once(unsigned);
    while remainder > 1
      invariant power >= 0 && remainder >= 0 && (unsigned > 0 ==> remainder > 0)
      invariant Kernel.PowerOfTwo(unsigned) == Kernel.PowerOfTwo(remainder)
      invariant if unsigned == 0 then remainder == power == 0 else Multiple(unsigned, remainder, power)
      decreases remainder
    {
      if remainder % 2 == 1 { return -1; }
      Halve(unsigned, remainder, power);
      remainder := remainder / 2;
      power := power + 1;
    }
    if unsigned > 0 { OneLeft(unsigned, power); }
  }

  /** u is r times 2 to the p. */
  predicate Multiple(u: int, r: int, p: nat) {
    u == r * Bits.Pow2(p)
  }

  lemma Once(u: int)
    ensures Multiple(u, u, 0)
  {
  }

  lemma OneLeft(u: int, p: nat)
    requires Multiple(u, 1, p)
    ensures u == Bits.Pow2(p)
  {
  }

  lemma Halve(u: int, r: int, p: nat)
    requires r > 1 && r % 2 == 0
    ensures Multiple(u, r, p) == Multiple(u, r / 2, p + 1)
  {
    var h := r / 2;
    assert r == 2 * h;
    assert h * Bits.Pow2(p + 1) == h * (2 * Bits.Pow2(p)) == (2 * h) * Bits.Pow2(p);
  }

  lemma BootCount()
    ensures |BootTasks()| == TASK_MAX_COUNT
  {
  }

  lemma RotatesHead(s: seq<nat>)
    requires |s| >= 2 && Distinct(s)
    ensures s[|s| - 1] != s[0] && s[0] in s && Remove(s, s[0]) == s[1..]
  {
  }
}
