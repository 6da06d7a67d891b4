/** The kernel's tasks, task lists, terminals and windows as a state machine: one step for each interrupt and each
    system call that moves a task between lists or opens, closes or focuses a terminal. A context switch is a
    change of the running task. Lists are sequences from the node after the sentinel on. */
module Kernel {
  import opened Common

  const TASK_MAX_COUNT := 10
  const TERMINAL_MAX_COUNT := 5
  const GUI_MAX_WINDOW_NUM := 5
  const SCHED_PIT_INTERVAL := 10
  const SCHED_TASK_TIME := 50
  const RTC_HARDWARE_FREQUENCY := 256
  const KEYBOARD_BUF_SIZE := 128

  /** Keys F1 to F3 change terminals. */
  const FUNCTION_KEYS := 3

  /** Slots of the two tasks started at boot. */
  const INIT_TASK := 0
  const IDLE_TASK := 1

  datatype Option<+T> = None | Some(value: T)

  /** A task slot. Kernel tasks have no terminal; owners opened theirs, other tasks share their parent's. */
  datatype Task = Task(valid: bool, kernel: bool, idle: bool, owner: bool, parent: Option<nat>, term: Option<nat>,
                       remain: int, freq: int, counter: int)

  datatype State = State(
    tasks: seq<Task>,
    run: seq<nat>, rtc: seq<nat>, reader: seq<nat>, child: seq<nat>,
    running: nat,
    slots: seq<bool>, ask: seq<nat>, fg: seq<Option<nat>>, focus: Option<nat>,
    stack: seq<nat>)

  /** What can happen. TermRead blocks, ReadNow finds its input in the buffer. KeyWake is a key that completes a read;
      KeyElsewhere is one that does so while Alt and a function key are held. Closing a window whose foreground task
      is the running one is Halt, any other is CloseOther. */
  datatype Event =
    | Tick | Yield
    | RtcOpen | RtcWrite(f: int) | RtcRead | RtcInterrupt
    | TermRead(n: int) | ReadNow | KeyWake | KeyElsewhere(k: nat)
    | Shell(loads: bool) | Program(loads: bool) | Halt | CloseOther
    | ChangeFocus(id: int) | PressWindow(i: nat)

  // ----- List operations

  /** s without the first x. */
  function Remove(s: seq<nat>, x: nat): seq<nat> {
    if s == [] then [] else if s[0] == x then s[1..] else [s[0]] + Remove(s[1..], x)
  }

  lemma {:induction false} RemoveFirst(s: seq<nat>, i: nat)
    requires i < |s| && forall j :: 0 <= j < i ==> s[j] != s[i]
    ensures Remove(s, s[i]) == s[..i] + s[i + 1..]
  {
    if i > 0 {
      RemoveFirst(s[1..], i - 1);
      assert s[1..][..i - 1] == s[1..i] && s[1..][i..] == s[i + 1..];
      assert s[..i] == [s[0]] + s[1..i];
    }
  }

  lemma {:induction false} RemoveNone(s: seq<nat>, t: nat)
    requires t !in s
    ensures Remove(s, t) == s
  {
    if s != [] { RemoveNone(s[1..], t); }
  }

  lemma RemoveKeeps(s: seq<nat>, t: nat)
    requires Distinct(s) && t in s
    ensures Distinct(Remove(s, t)) && forall u: nat :: u in Remove(s, t) <==> u in s && u != t
  {
    hide Remove;
    var i: nat :| i < |s| && s[i] == t;
    RemoveFirst(s, i);
    forall u: nat | u in s && u != t ensures u in Remove(s, t) {
      var j: nat :| j < |s| && s[j] == u;
      assert if j < i then s[..i][j] == u else s[i + 1..][j - i - 1] == u;
    }
  }

  predicate IsIdle(tasks: seq<Task>, t: nat) {
    t < |tasks| && tasks[t].idle
  }

  /** The idle task at the head gives way to any other task. */
  function IdleLast(tasks: seq<Task>, run: seq<nat>): seq<nat> {
    if |run| > 1 && IsIdle(tasks, run[0]) then run[1..] + [run[0]] else run
  }

  /** sched_launch_to_current_head. */
  function Launch(s: State): State {
    if s.run == [] then s
    else
      var r := IdleLast(s.tasks, s.run);
      s.(run := r, running := r[0])
  }

  function Refill(s: State, t: nat): State {
    if t < |s.tasks| then s.(tasks := s.tasks[t := s.tasks[t].(remain := SCHED_TASK_TIME)]) else s
  }

  /** sched_move_running_to_last: no move when the running task is the last one. */
  function RunningToLast(s: State): State {
    if s.run != [] && s.run[|s.run| - 1] == s.running then s
    else s.(run := Remove(s.run, s.running) + [s.running])
  }

  // ----- Interrupts and voluntary waiting

  function TickStep(s: State): State
    requires s.running < |s.tasks|
  {
    var t := s.tasks[s.running];
    if t.idle then Launch(RunningToLast(s))
    else
      var left := t.remain - SCHED_PIT_INTERVAL;
      if left <= 0 then Launch(RunningToLast(Refill(s, s.running)))
      else s.(tasks := s.tasks[s.running := t.(remain := left)])
  }

  function YieldStep(s: State): State {
    Launch(RunningToLast(if IsIdle(s.tasks, s.running) then s else Refill(s, s.running)))
  }

  /** C division, which truncates towards zero. */
  function Quotient(a: int, b: int): int
    requires b != 0
  {
    if (a >= 0) == (b > 0) then Abs(a) / Abs(b) else -(Abs(a) / Abs(b))
  }

  /** Interrupts to wait for at frequency f. */
  function WaitCount(f: int): int
    requires f != 0
  {
    Quotient(Quotient(RTC_HARDWARE_FREQUENCY, f), 4)
  }

  function RtcSet(s: State, f: int): State
    requires s.running < |s.tasks| && f != 0
  {
    s.(tasks := s.tasks[s.running := s.tasks[s.running].(freq := f, counter := WaitCount(f))])
  }

  function RtcReadStep(s: State): State
    requires s.running < |s.tasks| && s.tasks[s.running].freq != 0
  {
    var t := s.tasks[s.running];
    if t.freq == -1 then s
    else
      Launch(s.(tasks := s.tasks[s.running := t.(counter := WaitCount(t.freq))],
                run := Remove(s.run, s.running), rtc := [s.running] + s.rtc))
  }

  /** The counter of t goes down by one. */
  function CountDown(tasks: seq<Task>, t: nat): seq<Task> {
    if t < |tasks| then tasks[t := tasks[t].(counter := tasks[t].counter - 1)] else tasks
  }

  predicate Due(tasks: seq<Task>, t: nat) {
    t < |tasks| && tasks[t].counter == 0
  }

  /** One waiting task at an interrupt: count down, and wake it at the head of the run queue when its counter reaches
      0. */
  function RtcVisit(s: State, t: nat): State {
    var s1 := s.(tasks := CountDown(s.tasks, t));
    if Due(s1.tasks, t) then Refill(s1, t).(rtc := Remove(s1.rtc, t), run := [t] + s1.run) else s1
  }

  /** The loop over the wait list, safe against removal. */
  function RtcVisits(s: State, waiting: seq<nat>): State
    decreases |waiting|
  {
    if waiting == [] then s else RtcVisits(RtcVisit(s, waiting[0]), waiting[1..])
  }

  function RtcInterruptStep(s: State): State {
    var s1 := RtcVisits(s, s.rtc);
    if |s1.rtc| < |s.rtc| then Launch(s1) else s1
  }

  /** user_ask_len of the running task's terminal; it is one byte wide. */
  function Ask(s: State, t: nat, n: int): State {
    if t < |s.tasks| && s.tasks[t].term.Some? && s.tasks[t].term.value < |s.ask|
    then s.(ask := s.ask[s.tasks[t].term.value := n % 256]) else s
  }

  /** A read from the terminal that has to wait for input. */
  function TermReadStep(s: State, n: int): State {
    Launch(Ask(s, s.running, if n > KEYBOARD_BUF_SIZE then KEYBOARD_BUF_SIZE else n)
           .(run := Remove(s.run, s.running), reader := [s.running] + s.reader))
  }

  /** t goes from whatever list it is on to the head of the run queue and runs; if it was reading, its read returns. */
  function Wake(s: State, t: nat): State {
    var s1 := Launch(Refill(s, t).(run := [t] + Remove(s.run, t), rtc := Remove(s.rtc, t),
                                   reader := Remove(s.reader, t), child := Remove(s.child, t)));
    if t in s.reader then Ask(s1, t, 0) else s1
  }

  // ----- Slots

  /** Index of the first false entry, the length if there is none. */
  function FirstFree(used: seq<bool>): (i: nat)
    ensures i <= |used| && (i < |used| ==> !used[i]) && forall k :: 0 <= k < i ==> used[k]
  {
    if used == [] || !used[0] then 0 else 1 + FirstFree(used[1..])
  }

  function UsedTasks(tasks: seq<Task>): (r: seq<bool>)
    ensures |r| == |tasks|
  {
    seq(|tasks|, i requires 0 <= i < |tasks| => tasks[i].valid)
  }

  // ----- Windows

  /** gui_new_window: the window stack with window k at its end, or failure. */
  function NewWindow(stack: seq<nat>, k: nat): Option<seq<nat>> {
    if k in stack || |stack| >= GUI_MAX_WINDOW_NUM then None else Some(stack + [k])
  }

  /** gui_activate_window: bring the window to the top and focus its terminal. */
  function Activate(s: State, k: nat): State {
    if k !in s.stack || s.stack[0] == k then s
    else Focus(s.(stack := [k] + Remove(s.stack, k)), k)
  }

  /** task_change_focus. */
  function Focus(s: State, k: int): State {
    if 0 <= k < |s.fg| && s.fg[k].Some? then s.(focus := s.fg[k]) else s
  }

  /** Next open terminal below k, counting down and around. */
  function AnotherFrom(fg: seq<Option<nat>>, k: nat, i: nat): Option<nat>
    requires |fg| == TERMINAL_MAX_COUNT && k < TERMINAL_MAX_COUNT && 1 <= i <= TERMINAL_MAX_COUNT
    decreases TERMINAL_MAX_COUNT - i
  {
    if i == TERMINAL_MAX_COUNT then None
    else
      var j := (k - i + TERMINAL_MAX_COUNT) % TERMINAL_MAX_COUNT;
      if fg[j].Some? then Some(j) else AnotherFrom(fg, k, i + 1)
  }

  // ----- execute and halt

  /** A new task in slot t: in the run queue at the head, with full time, and running. */
  function Start(s: State, t: nat): State
    requires t < |s.tasks|
  {
    s.(tasks := s.tasks[t := s.tasks[t].(remain := SCHED_TASK_TIME, freq := -1)], run := [t] + s.run, running := t)
  }

  /** Slot t taken for a task that owns its terminal and has no parent. */
  function TakeOwnerSlot(s: State, t: nat): State
    requires t < |s.tasks|
  {
    s.(tasks := s.tasks[t := s.tasks[t].(valid := true, kernel := false, idle := false, owner := true, parent := None)])
  }

  /** Its terminal k taken as well, with the window in the stack. */
  function OpenTerminal(s: State, t: nat, k: nat, stack: seq<nat>): State
    requires t < |s.tasks| && k < |s.slots|
  {
    s.(tasks := s.tasks[t := s.tasks[t].(term := Some(k))], slots := s.slots[k := true], stack := stack)
  }

  /** Window, terminal and slot given back, in that order. */
  function CloseTerminal(s: State, t: nat, k: nat): State
    requires t < |s.tasks| && k < |s.slots|
  {
    Free(s.(stack := Remove(s.stack, k), slots := s.slots[k := false]), t)
  }

  function Free(s: State, t: nat): State
    requires t < |s.tasks|
  {
    s.(tasks := s.tasks[t := s.tasks[t].(valid := false)])
  }

  /** system_execute("shell", 0, 1, NULL): a task with a terminal and a window of its own. */
  function ShellStep(s: State, loads: bool): State
    requires |s.fg| == |s.slots|
  {
    var t, k := FirstFree(UsedTasks(s.tasks)), FirstFree(s.slots);
    if t == |s.tasks| then s
    else
      var s0, stack := TakeOwnerSlot(s, t), NewWindow(s.stack, k);
      if k == |s.slots| || stack.None? then Free(s0, t)
      else
        var s1 := OpenTerminal(s0, t, k, stack.value);
        if !loads then CloseTerminal(s1, t, k)
        else Start(Activate(s1.(fg := s1.fg[k := Some(t)], focus := Some(t)), k), t)
  }

  /** Slot t taken for a child of the running task, on its terminal k. */
  function TakeSlot(s: State, t: nat, k: nat): State
    requires t < |s.tasks|
  {
    s.(tasks := s.tasks[t := s.tasks[t].(valid := true, kernel := false, idle := false, owner := false,
                                         parent := Some(s.running), term := Some(k))])
  }

  /** system_execute(command, 1, 0, NULL): a child on the terminal of the running task, which waits for it. */
  function ProgramStep(s: State, loads: bool): State
    requires s.running < |s.tasks|
  {
    var t, term := FirstFree(UsedTasks(s.tasks)), s.tasks[s.running].term;
    if t == |s.tasks| || term.None? || term.value >= |s.fg| then s
    else
      var k, s1 := term.value, TakeSlot(s, t, term.value);
      if !loads then Free(s1, t)
      else
        var s2 := Start(Activate(s1.(fg := s1.fg[k := Some(t)], focus := Some(t)), k), t);
        s2.(run := Remove(s2.run, s.running), child := [s.running] + s.child)
  }

  /** What tear_down_task does to the lists: the task leaves the list it is on, its parent returns to the run queue. */
  function Unlist(s: State, t: nat): State
    requires t < |s.tasks|
  {
    var s1 := s.(run := Remove(s.run, t), rtc := Remove(s.rtc, t), reader := Remove(s.reader, t),
                 child := Remove(s.child, t));
    var parent := s.tasks[t].parent;
    if parent.None? then s1
    else Refill(s1, parent.value).(child := Remove(s1.child, parent.value), run := [parent.value] + s1.run)
  }

  /** What tear_down_task does to terminals, windows and focus, before the slot is freed. */
  function Untie(s: State, t: nat): State
    requires t < |s.tasks| && |s.fg| == TERMINAL_MAX_COUNT && |s.slots| == TERMINAL_MAX_COUNT
    requires s.tasks[t].term.Some? && s.tasks[t].term.value < TERMINAL_MAX_COUNT
  {
    var k := s.tasks[t].term.value;
    if s.tasks[t].owner then
      var fg := s.fg[k := None];
      var another := AnotherFrom(fg, k, 1);
      s.(fg := fg, stack := Remove(s.stack, k), slots := s.slots[k := false],
         focus := if !FocusOn(s, k) then s.focus else if another.Some? then fg[another.value] else None)
    else if s.tasks[t].parent.Some? then
      var p := s.tasks[t].parent;
      s.(fg := s.fg[k := p], focus := if FocusOn(s, k) then p else s.focus)
    else s
  }

  /** The focused task is on terminal k. */
  predicate FocusOn(s: State, k: nat) {
    s.focus.Some? && s.focus.value < |s.tasks| && s.tasks[s.focus.value].term == Some(k)
  }

  predicate Tearable(s: State, t: nat) {
    && t < |s.tasks| && |s.fg| == TERMINAL_MAX_COUNT && |s.slots| == TERMINAL_MAX_COUNT
    && s.tasks[t].term.Some? && s.tasks[t].term.value < TERMINAL_MAX_COUNT
  }

  function TearDown(s: State, t: nat): State
    requires Tearable(s, t)
  {
    Free(Untie(Unlist(s, t), t), t)
  }

  /** system_halt of the running task: back to its parent, or to the head of the run queue. */
  function HaltStep(s: State): State
    requires Tearable(s, s.running)
  {
    var parent := s.tasks[s.running].parent;
    var s1 := TearDown(s, s.running);
    if parent.Some? then s1.(running := parent.value) else Launch(s1)
  }

  /** The foreground task of the top window. */
  function TopTask(s: State): Option<nat> {
    if s.stack != [] && s.stack[0] < |s.fg| then s.fg[s.stack[0]] else None
  }

  // ----- The machine

  /** When the source reaches the event. Kernel tasks only loop and yield (task.c:652-699); a key completes a read
      only if one is asked for on the focused terminal; a read of 0 bytes does not wait. */
  predicate Guard(s: State, e: Event) {
    && s.running < |s.tasks| && |s.fg| == |s.slots| == |s.ask| == TERMINAL_MAX_COUNT
    && match e
       case RtcOpen => !s.tasks[s.running].kernel
       case RtcWrite(f) => !s.tasks[s.running].kernel && f != 0
       case RtcRead => !s.tasks[s.running].kernel && s.tasks[s.running].freq != 0
       case TermRead(n) => !s.tasks[s.running].kernel && n != 0
       case ReadNow => !s.tasks[s.running].kernel
       case Program(_) => !s.tasks[s.running].kernel
       case KeyWake => FocusAsks(s)
       case KeyElsewhere(k) => FocusAsks(s) && k < FUNCTION_KEYS && s.fg[k].Some? && s.fg[k] != s.focus
       case Halt => !s.tasks[s.running].kernel && Tearable(s, s.running)
       case CloseOther => TopTask(s).Some? && TopTask(s).value != s.running && Tearable(s, TopTask(s).value)
       case _ => true
  }

  /** Some bytes are asked for on the focused terminal. */
  predicate FocusAsks(s: State) {
    && s.focus.Some? && s.focus.value < |s.tasks|
    && var term := s.tasks[s.focus.value].term; term.Some? && term.value < |s.ask| && s.ask[term.value] != 0
  }

  /** The event would insert the head of the run queue after the sentinel, before itself (task.c:788-800). */
  predicate SelfMove(s: State, e: Event) {
    match e
    case KeyWake => s.run != [] && s.focus == Some(s.run[0])
    case KeyElsewhere(k) => s.run != [] && k < |s.fg| && s.fg[k] == Some(s.run[0])
    case _ => false
  }

  predicate Enabled(s: State, e: Event) {
    Guard(s, e) && !SelfMove(s, e)
  }

  function Step(s: State, e: Event): State
    requires Enabled(s, e)
  {
    match e
    case Tick => TickStep(s)
    case Yield => YieldStep(s)
    case RtcOpen => s.(tasks := s.tasks[s.running := s.tasks[s.running].(freq := 2)])
    case RtcWrite(f) => if IsPowerOfTwo(f) then RtcSet(s, f) else s
    case RtcRead => RtcReadStep(s)
    case RtcInterrupt => RtcInterruptStep(s)
    case TermRead(n) => TermReadStep(s, n)
    case ReadNow => Ask(s, s.running, 0)
    case KeyWake => Wake(s, s.focus.value)
    case KeyElsewhere(k) => Wake(Focus(s, k), s.fg[k].value)
    case Shell(loads) => ShellStep(s, loads)
    case Program(loads) => ProgramStep(s, loads)
    case Halt => HaltStep(s)
    case CloseOther => TearDown(s, TopTask(s).value)
    case ChangeFocus(id) => Focus(s, id)
    case PressWindow(i) => if i < |s.stack| && i != 0 then Activate(s, s.stack[i]) else s
  }

  /** What an event that moves the head of the run queue before itself does but for the links of that queue: the head
      gets full time and runs. Its read does not return, as it was not waiting. */
  function SelfMoved(s: State, e: Event): State
    requires Guard(s, e) && SelfMove(s, e)
  {
    var head := s.run[0];
    Refill(if e.KeyElsewhere? then Focus(s, e.k) else s, head).(running := head)
  }

  /** The frequencies system_rtc_write accepts: as unsigned numbers, powers of two. */
  predicate IsPowerOfTwo(f: int) {
    PowerOfTwo(if f < 0 then f + 0x1_0000_0000 else f)
  }

  predicate PowerOfTwo(u: int) {
    u == 0 || u == 1 || (u > 1 && u % 2 == 0 && PowerOfTwo(u / 2))
  }

  /** Task slots after boot: init, the idle task and free slots. */
  function BootTasks(): seq<Task> {
    var none := Task(false, false, false, false, None, None, 0, -1, 0);
    [none.(valid := true, kernel := true, remain := SCHED_TASK_TIME),
     none.(valid := true, kernel := true, idle := true),
     none, none, none, none, none, none, none, none]
  }

  /** After boot: init has started the idle task, which is running. */
  function Boot(): State {
    State(BootTasks(), [IDLE_TASK, INIT_TASK], [], [], [], IDLE_TASK,
          [false, false, false, false, false], [0, 0, 0, 0, 0], [None, None, None, None, None], None, [])
  }

  predicate CanRun(s: State, events: seq<Event>)
    decreases |events|
  {
    events == [] || (Enabled(s, events[0]) && CanRun(Step(s, events[0]), events[1..]))
  }

  function Run(s: State, events: seq<Event>): State
    requires CanRun(s, events)
    decreases |events|
  {
    if events == [] then s else Run(Step(s, events[0]), events[1..])
  }
}
