/** What one event does to the kernel, field by field and in plain numbers, in every state of the invariant: five
    terminals, ten task slots of which number 1 is the idle task, a full time of 50 ms. */
module KernelSteps {
  import opened Common
  import opened Kernel
  import opened KernelInvariant
  import opened KernelRuns
  import Bits

  // ----- When events happen

  /** At boot the idle task runs, before init, which has its full time; no other task slot is taken, no terminal or
      window is open, nothing has the focus, and nothing is asked for. */
  lemma AtBoot(t: nat, k: nat)
    requires t < 10 && k < 5
    ensures var s := Boot();
            && |s.tasks| == 10 && s.tasks[t].valid == s.tasks[t].kernel == (t < 2) && s.tasks[t].idle == (t == 1)
            && s.tasks[0].remain == 50 && s.run == [1, 0] && s.running == 1 && s.rtc == s.reader == s.child == []
            && |s.slots| == |s.ask| == |s.fg| == 5 && !s.slots[k] && s.ask[k] == 0 && s.fg[k] == None
            && s.focus == None && s.stack == []
  {
  }

  /** A key can complete a read if some bytes are asked for on the focused terminal, and change the focus as well if F1
      to F3 stands for another open terminal. */
  lemma KeysOffered(s: State, chains: seq<seq<nat>>, k: nat)
    requires Inv(s, chains)
    ensures |s.fg| == |s.slots| == |s.ask| == 5
    ensures Guard(s, KeyWake) <==> exists j: nat :: j < 5 && s.fg[j].Some? && s.fg[j] == s.focus && s.ask[j] != 0
    ensures Guard(s, KeyElsewhere(k)) <==> Guard(s, KeyWake) && k < 3 && s.slots[k] && s.fg[k] != s.focus
  {
    hide Inv;
    RunningTask(s, chains);
    if s.focus.Some? {
      var j := FocusTerminal(s, chains);
      ForegroundIs(s, chains, j) by { InvTies(s, chains); }
      forall i: nat | i < 5 && s.fg[i] == s.focus ensures i == j {
        ForegroundIs(s, chains, i) by { InvTies(s, chains); }
      }
    }
    if k < 5 { SlotTaken(s, chains, k); }
  }

  /** All tasks but init and the idle task can call the system and halt; the top window can be closed unless its
      terminal's foreground task is the one that runs. */
  lemma CallsOffered(s: State, chains: seq<seq<nat>>, loads: bool, n: int, f: int)
    requires Inv(s, chains)
    ensures Guard(s, RtcOpen) == Guard(s, ReadNow) == Guard(s, RtcRead) == Guard(s, Halt) == (s.running > 1)
    ensures Guard(s, Program(loads)) == (s.running > 1)
    ensures Guard(s, TermRead(n)) == (s.running > 1 && n != 0) && Guard(s, RtcWrite(f)) == (s.running > 1 && f != 0)
    ensures |s.fg| == 5 && (s.stack != [] ==> s.stack[0] < 5)
    ensures Guard(s, CloseOther) <==> s.stack != [] && s.fg[s.stack[0]] != Some(s.running)
    ensures Guard(s, Tick) && Guard(s, Yield) && Guard(s, RtcInterrupt) && Guard(s, Shell(loads))
  {
    hide TasksOk, Tied, Stacked, Placed;
    RunningTask(s, chains);
    UserRuns(s);
    if s.running > 1 { Foreground(s, chains, s.running); }
    if s.stack != [] {
      OpenWindow(s, chains, 0);
      ForegroundIs(s, chains, s.stack[0]);
    }
  }

  // ----- Windows and focus

  lemma OpenWindow(s: State, chains: seq<seq<nat>>, i: nat)
    requires Inv(s, chains) && i < |s.stack|
    ensures |s.fg| == 5 && s.stack[i] < 5 && s.fg[s.stack[i]].Some?
    ensures forall j :: 0 <= j < i ==> s.stack[j] != s.stack[i]
  {
    hide ListsOk, Tied, Focused, Count;
    Sizes(s, chains);
    CountIn(s.stack);
    forall t: nat ensures Count(s.stack, t) <= 1 { assert Count(s.stack, t) == if Open(s.slots, t) then 1 else 0; }
    OnceDistinct(s.stack);
    assert s.stack[i] in s.stack && Open(s.slots, s.stack[i]);
    SlotTaken(s, chains, s.stack[i]);
  }

  /** A press on a window behind the top one brings it to the front of the others, which keep their order, and gives the
      focus to the foreground task of its terminal; any other press changes nothing. */
  lemma PressRaises(s: State, chains: seq<seq<nat>>, i: nat)
    requires Inv(s, chains)
    ensures Enabled(s, PressWindow(i))
    ensures 0 < i < |s.stack| ==>
              && |s.fg| == 5 && s.stack[i] < 5 && s.fg[s.stack[i]].Some?
              && Step(s, PressWindow(i))
                 == s.(stack := [s.stack[i]] + s.stack[..i] + s.stack[i + 1..], focus := s.fg[s.stack[i]])
    ensures !(0 < i < |s.stack|) ==> Step(s, PressWindow(i)) == s
  {
    hide Inv, Remove;
    RunningTask(s, chains);
    if 0 < i < |s.stack| {
      OpenWindow(s, chains, i);
      RemoveFirst(s.stack, i);
      assert [s.stack[i]] + (s.stack[..i] + s.stack[i + 1..]) == [s.stack[i]] + s.stack[..i] + s.stack[i + 1..];
    }
  }

  /** The number of an open terminal moves the focus to its foreground task; any other number changes nothing. */
  lemma FocusGoes(s: State, chains: seq<seq<nat>>, id: int)
    requires Inv(s, chains)
    ensures Enabled(s, ChangeFocus(id)) && |s.fg| == |s.slots| == 5
    ensures Step(s, ChangeFocus(id)) == if 0 <= id < 5 && s.slots[id] then s.(focus := s.fg[id]) else s
    ensures 0 <= id < 5 ==> s.slots[id] == s.fg[id].Some?
  {
    hide Inv;
    RunningTask(s, chains);
    if 0 <= id < 5 { SlotTaken(s, chains, id); }
  }

  /** Of several open terminals the next one below is taken, with the highest number below that of 0. */
  lemma NextBelow(fg: seq<Option<nat>>, k: nat, i: nat)
    requires |fg| == 5 && k < 5 && 1 <= i < 5
    requires fg[Below(k, i)].Some? && forall j :: 1 <= j < i ==> fg[Below(k, j)].None?
    ensures AnotherFrom(fg, k, 1) == Some(Below(k, i))
    ensures Below(k, i) == if i <= k then k - i else k + 5 - i
  {
    NextBelowFrom(fg, k, i, 1);
  }

  lemma {:induction false} NextBelowFrom(fg: seq<Option<nat>>, k: nat, i: nat, from: nat)
    requires |fg| == 5 && k < 5 && 1 <= from <= i < 5
    requires fg[Below(k, i)].Some? && forall j :: from <= j < i ==> fg[Below(k, j)].None?
    ensures AnotherFrom(fg, k, from) == Some(Below(k, i))
    decreases i - from
  {
    if from < i {
      assert fg[Below(k, from)].None?;
      NextBelowFrom(fg, k, i, from + 1);
    }
  }

  // ----- The run queue

  /** The idle task behind any other. */
  function IdleBehind(run: seq<nat>): (r: seq<nat>)
    requires run != []
    ensures r != []
  {
    if |run| > 1 && run[0] == 1 then run[1..] + [1] else run
  }

  /** The task at index i behind the others. */
  function Behind(run: seq<nat>, i: nat): (r: seq<nat>)
    requires i < |run|
    ensures r != []
  {
    IdleBehind(run[..i] + run[i + 1..] + [run[i]])
  }

  lemma LaunchIs(s: State)
    requires TasksOk(s.tasks) && s.run != [] && Live(s.tasks, s.run[0])
    ensures Launch(s) == s.(run := IdleBehind(s.run), running := IdleBehind(s.run)[0])
  {
    assert TaskOk(s.tasks[s.run[0]], s.run[0]);
  }

  /** Where the running task is in the queue. */
  lemma RunningAt(s: State) returns (i: nat)
    requires ListsOk(s) && s.running in s.run
    ensures i < |s.run| && s.run[i] == s.running && Remove(s.run, s.running) == s.run[..i] + s.run[i + 1..]
    ensures forall j :: 0 <= j < |s.run| && j != i ==> s.run[j] != s.running
    ensures forall t :: t in s.run ==> Live(s.tasks, t)
  {
    hide TasksOk, Placed, Count, Remove;
    i :| 0 <= i < |s.run| && s.run[i] == s.running;
    forall t: nat ensures Count(s.run, t) <= 1 { OnlyThere(s, t); }
    OnceDistinct(s.run);
    RemoveFirst(s.run, i);
    forall t | t in s.run ensures Live(s.tasks, t) { OnlyThere(s, t); }
  }

  lemma LastIs(s: State, i: nat)
    requires i < |s.run| && s.run[i] == s.running && Remove(s.run, s.running) == s.run[..i] + s.run[i + 1..]
    requires forall j :: 0 <= j < |s.run| && j != i ==> s.run[j] != s.running
    ensures RunningToLast(s) == s.(run := s.run[..i] + s.run[i + 1..] + [s.running])
  {
    if i == |s.run| - 1 { assert s.run == s.run[..i] + s.run[i + 1..] + [s.running]; }
  }

  /** A task that yields gets its full time back, unless it is the idle task, and goes behind the others, which keep
      their order; the first in the queue runs. */
  lemma YieldRotates(s: State, chains: seq<seq<nat>>) returns (i: nat)
    requires Inv(s, chains)
    ensures Enabled(s, Yield) && i < |s.run| && s.run[i] == s.running < |s.tasks|
    ensures Step(s, Yield) == s.(run := Behind(s.run, i), running := Behind(s.run, i)[0], tasks :=
              if s.running == 1 then s.tasks else s.tasks[s.running := s.tasks[s.running].(remain := 50)])
  {
    hide Remove, Launch, RunningToLast, TasksOk, Tied, Stacked, Placed, IdleBehind;
    RunningTask(s, chains);
    UserRuns(s);
    i := RunningAt(s);
    var s1 := if s.running == 1 then s else Refill(s, s.running);
    if s.running != 1 { RefillKeeps(s, s.running); }
    LastIs(s1, i);
    var s2 := RunningToLast(s1);
    assert s2.run[0] in s.run;
    LaunchIs(s2);
  }

  /** A tick takes 10 ms of the time of a task that has more; of any other, and of the idle task, it is like a yield. */
  lemma TickCounts(s: State, chains: seq<seq<nat>>)
    requires Inv(s, chains)
    ensures Enabled(s, Tick) && Enabled(s, Yield) && s.running < |s.tasks|
    ensures var t := s.tasks[s.running];
            Step(s, Tick) == if s.running != 1 && t.remain > 10
                             then s.(tasks := s.tasks[s.running := t.(remain := t.remain - 10)]) else Step(s, Yield)
  {
    hide Launch, RunningToLast, TasksOk, Tied, Stacked, Placed;
    RunningTask(s, chains);
    UserRuns(s);
  }

  // ----- Waiting and waking

  lemma Left(s: State) returns (rest: seq<nat>)
    requires ListsOk(s) && s.running in s.run && s.running > 1
    ensures rest == Remove(s.run, s.running) && rest != [] && Live(s.tasks, rest[0])
  {
    hide TasksOk, Placed, Remove;
    var i := RunningAt(s);
    rest := Remove(s.run, s.running);
    var j: nat :| j < |s.run| && s.run[j] == 1;
    assert rest[0] in s.run;
  }

  /** A read that has to wait asks for at most 128 bytes, counted in one byte, on its terminal; the caller goes from the
      run queue to the front of the readers. */
  lemma ReadWaits(s: State, chains: seq<seq<nat>>, n: int) returns (k: nat, rest: seq<nat>)
    requires Inv(s, chains) && Guard(s, TermRead(n))
    ensures k < 5 && s.tasks[s.running].term == Some(k) && rest == Remove(s.run, s.running) && rest != []
    ensures Step(s, TermRead(n)) == s.(run := IdleBehind(rest), running := IdleBehind(rest)[0],
              reader := [s.running] + s.reader, ask := s.ask[k := if n > 128 then 128 else n % 256])
  {
    hide Remove, Launch, TasksOk, Tied, Stacked, Placed, IdleBehind;
    UserRuns(s);
    Foreground(s, chains, s.running);
    k := s.tasks[s.running].term.value;
    rest := Left(s);
    LaunchIs(Ask(s, s.running, if n > 128 then 128 else n).(run := rest, reader := [s.running] + s.reader));
  }

  /** A read that finds its input takes the request of its terminal back. */
  lemma ReadReturns(s: State, chains: seq<seq<nat>>) returns (k: nat)
    requires Inv(s, chains) && Guard(s, ReadNow)
    ensures k < 5 && s.tasks[s.running].term == Some(k) && Step(s, ReadNow) == s.(ask := s.ask[k := 0])
  {
    hide TasksOk, Tied, Stacked, Placed;
    UserRuns(s);
    Foreground(s, chains, s.running);
    k := s.tasks[s.running].term.value;
  }

  /** A read from the clock starts a new count; the caller goes from the run queue to the front of the wait list. If it
      never opened the clock nothing changes. */
  lemma ClockWaits(s: State, chains: seq<seq<nat>>) returns (rest: seq<nat>)
    requires Inv(s, chains) && Guard(s, RtcRead)
    ensures rest == Remove(s.run, s.running) && rest != []
    ensures var t := s.tasks[s.running];
            Step(s, RtcRead) == if t.freq == -1 then s
                                else s.(tasks := s.tasks[s.running := t.(counter := WaitCount(t.freq))],
                                        run := IdleBehind(rest), running := IdleBehind(rest)[0],
                                        rtc := [s.running] + s.rtc)
  {
    hide Remove, Launch, TasksOk, Tied, Stacked, Placed, IdleBehind, WaitCount;
    UserRuns(s);
    rest := Left(s);
    var t := s.tasks[s.running];
    Retimed(s, s.running, t.(counter := WaitCount(t.freq)));
    LaunchIs(s.(tasks := s.tasks[s.running := t.(counter := WaitCount(t.freq))], run := rest,
                rtc := [s.running] + s.rtc));
  }

  /** The clock opens at 2 Hz, and a frequency it accepts starts a new count. */
  lemma ClockSet(s: State, chains: seq<seq<nat>>, f: int)
    requires Inv(s, chains) && Guard(s, RtcWrite(f))
    ensures Enabled(s, RtcOpen) && Step(s, RtcOpen) == s.(tasks := s.tasks[s.running := s.tasks[s.running].(freq := 2)])
    ensures Step(s, RtcWrite(f)) == if !IsPowerOfTwo(f) then s
              else s.(tasks := s.tasks[s.running := s.tasks[s.running].(freq := f, counter := WaitCount(f))])
  {
    hide Inv, IsPowerOfTwo, WaitCount;
  }

  lemma {:induction false} PowersOfTwo(u: nat)
    ensures PowerOfTwo(u) <==> u == 0 || exists p: nat :: u == Bits.Pow2(p)
  {
    if u == 1 {
      assert u == Bits.Pow2(0);
    } else if u > 1 {
      PowersOfTwo(u / 2);
      if PowerOfTwo(u) {
        var p: nat :| u / 2 == Bits.Pow2(p);
        assert u == Bits.Pow2(p + 1);
      }
      if p: nat :| u == Bits.Pow2(p) {
        assert u == 2 * Bits.Pow2(p - 1);
        assert u / 2 == Bits.Pow2(p - 1);
      }
    }
  }

  /** Of the 32-bit frequencies the powers of two from 1 to 2^30 are accepted, and with them 0 and the least number. */
  lemma AcceptedFrequencies(f: int)
    requires -0x8000_0000 <= f < 0x8000_0000
    ensures IsPowerOfTwo(f) <==> f == 0 || f == -0x8000_0000 || exists p: nat :: p <= 30 && f == Bits.Pow2(p)
  {
    hide Bits.Pow2, PowerOfTwo;
    var u: nat := if f < 0 then f + 0x1_0000_0000 else f;
    PowersOfTwo(u);
    Large();
    if p: nat :| u == Bits.Pow2(p) {
      if p >= 32 { Bits.Pow2Monotone(32, p); }
      if p <= 30 { Bits.Pow2Monotone(p, 30); }
    }
    if f == -0x8000_0000 { assert u == Bits.Pow2(31); }
  }

  lemma Large()
    ensures Bits.Pow2(30) == 0x4000_0000 && Bits.Pow2(31) == 0x8000_0000 && Bits.Pow2(32) == 0x1_0000_0000
  {
    assert Bits.Pow2(8) == 256;
    assert Bits.Pow2(16) == 65536;
    assert Bits.Pow2(24) == 0x100_0000;
  }

  /** The foreground task of terminal k wakes: it goes to the head of the run queue with full time and runs; if it was
      reading, the request is taken back. */
  function Woken(s: State, k: nat): State
    requires k < |s.fg| && k < |s.ask| && s.fg[k].Some? && s.fg[k].value < |s.tasks|
  {
    var t := s.fg[k].value;
    s.(tasks := s.tasks[t := s.tasks[t].(remain := 50)], run := [t] + Remove(s.run, t), running := t,
       rtc := Remove(s.rtc, t), reader := Remove(s.reader, t), ask := if t in s.reader then s.ask[k := 0] else s.ask)
  }

  lemma WakeIs(s: State, chains: seq<seq<nat>>, k: nat)
    requires Inv(s, chains) && k < 5 && |s.fg| == |s.ask| == 5 && s.fg[k].Some?
    ensures s.fg[k].value < |s.tasks| && Wake(s, s.fg[k].value) == Woken(s, k)
  {
    hide Remove, TasksOk, TaskOk, Tied, Stacked, Placed;
    var t := s.fg[k].value;
    ForegroundIs(s, chains, k);
    UserTask(s, t);
    RemoveNone(s.child, t);
  }

  /** A key that completes a read wakes the task with the focus. */
  lemma KeyWakes(s: State, chains: seq<seq<nat>>) returns (k: nat)
    requires Inv(s, chains) && Enabled(s, KeyWake)
    ensures k < 5 && |s.fg| == |s.ask| == 5 && s.fg[k] == s.focus && s.focus.Some? && s.focus.value < |s.tasks|
    ensures s.tasks[s.focus.value].term == Some(k) && Step(s, KeyWake) == Woken(s, k)
  {
    hide Inv, Wake, Woken;
    k := FocusTerminal(s, chains);
    RunningTask(s, chains);
    WakeIs(s, chains, k);
    ForegroundIs(s, chains, k) by { InvTies(s, chains); }
  }

  lemma InvTies(s: State, chains: seq<seq<nat>>)
    requires Inv(s, chains)
    ensures Tied(s.tasks, s.child, s.slots, s.fg, chains)
  {
  }

  /** With Alt and a function key held it moves the focus first. */
  lemma KeyElsewhereWakes(s: State, chains: seq<seq<nat>>, k: nat)
    requires Inv(s, chains) && Enabled(s, KeyElsewhere(k))
    ensures s.fg[k].value < |s.tasks| && Step(s, KeyElsewhere(k)) == Woken(s.(focus := s.fg[k]), k)
  {
    hide Inv, Wake, Woken;
    FocusInv(s, k, chains);
    FocusFields(s, k);
    WakeIs(Focus(s, k), chains, k);
  }

  // ----- Tasks that start and end

  /** The first free task slot and the first free terminal. */
  predicate FirstSlots(s: State, t: nat, k: nat) {
    && t < |s.tasks| && !s.tasks[t].valid && (forall u :: 0 <= u < t ==> s.tasks[u].valid)
    && k < |s.slots| && !s.slots[k] && (forall j :: 0 <= j < k ==> s.slots[j])
  }

  /** A shell takes the first free task slot and the first free terminal, whose window comes to the front. It owns the
      terminal, has the focus and runs at the head of the queue with full time. */
  lemma ShellStarts(s: State, chains: seq<seq<nat>>, t: nat, k: nat)
    requires Inv(s, chains) && FirstSlots(s, t, k)
    ensures Enabled(s, Shell(true)) && |s.fg| == 5
    ensures Step(s, Shell(true))
            == s.(tasks := s.tasks[t := Task(true, false, false, true, None, Some(k), 50, -1, s.tasks[t].counter)],
                  run := [t] + s.run, running := t, slots := s.slots[k := true], fg := s.fg[k := Some(t)],
                  focus := Some(t), stack := [k] + s.stack)
  {
    hide Inv, Remove, Activate;
    RunningTask(s, chains);
    FirstFreeIs(UsedTasks(s.tasks), t);
    FirstFreeIs(s.slots, k);
    NewWindowFront(s, chains, t, k);
  }

  lemma NewWindowFront(s: State, chains: seq<seq<nat>>, t: nat, k: nat)
    requires Inv(s, chains) && k < |s.slots| && !s.slots[k]
    ensures |s.fg| == |s.slots| == 5 && NewWindow(s.stack, k) == Some(s.stack + [k])
    ensures var s1 := s.(stack := s.stack + [k], fg := s.fg[k := Some(t)], focus := Some(t));
            forall s2: State :: s2.stack == s1.stack && s2.fg == s1.fg && s2.focus == s1.focus ==>
              Activate(s2, k) == s2.(stack := [k] + s.stack)
  {
    hide ListsOk, Tied, Focused, Count, Remove;
    Sizes(s, chains);
    WindowFits(s.stack, s.slots, k);
    assert Count(s.stack, k) == 0;
    CountIn(s.stack);
    RemovePushed(s.stack, k);
    if s.stack == [] { assert s.stack + [k] == [k] + s.stack; }
  }

  /** With no task slot free nothing happens, and with no terminal free nothing but the contents of a free slot
      changes. */
  lemma NoRoom(s: State, chains: seq<seq<nat>>, loads: bool)
    requires Inv(s, chains)
    requires (forall u :: 0 <= u < |s.tasks| ==> s.tasks[u].valid) || forall j :: 0 <= j < |s.slots| ==> s.slots[j]
    ensures Enabled(s, Shell(loads)) && Step(s, Shell(loads)).(tasks := s.tasks) == s
  {
    hide Inv;
    RunningTask(s, chains);
  }

  /** A program takes the first free task slot and becomes the foreground task of its caller's terminal, whose window
      comes to the front; it has the focus and runs at the head of the queue with full time. The caller goes from the
      run queue to the front of the tasks that wait for a child. */
  lemma ProgramStarts(s: State, chains: seq<seq<nat>>, t: nat) returns (k: nat)
    requires Inv(s, chains) && Guard(s, Program(true))
    requires t < |s.tasks| && !s.tasks[t].valid && forall u :: 0 <= u < t ==> s.tasks[u].valid
    ensures k < 5 && |s.fg| == 5 && s.tasks[s.running].term == Some(k)
    ensures Step(s, Program(true))
            == s.(tasks := s.tasks[t := Task(true, false, false, false, Some(s.running), Some(k), 50, -1,
                                             s.tasks[t].counter)],
                  run := [t] + Remove(s.run, s.running), running := t, child := [s.running] + s.child,
                  fg := s.fg[k := Some(t)], focus := Some(t), stack := [k] + Remove(s.stack, k))
  {
    hide TasksOk, TaskOk, Tied, Stacked, Placed, Remove, Activate, ListsOk;
    Sizes(s, chains);
    UserRuns(s);
    Foreground(s, chains, s.running);
    k := s.tasks[s.running].term.value;
    FirstFreeIs(UsedTasks(s.tasks), t);
    OpenInFront(s, chains, k);
    RemoveBehind(t, s.running, s.run);
  }

  lemma RemoveBehind(h: nat, t: nat, rest: seq<nat>)
    requires h != t
    ensures Remove([h] + rest, t) == [h] + Remove(rest, t)
  {
    assert ([h] + rest)[1..] == rest;
  }

  lemma OpenInFront(s: State, chains: seq<seq<nat>>, k: nat)
    requires Inv(s, chains) && k < 5 && |s.slots| == 5 && s.slots[k]
    ensures forall s2: State :: s2.stack == s.stack && |s2.fg| == 5 && s2.fg[k] == s2.focus && s2.focus.Some? ==>
              Activate(s2, k) == s2.(stack := [k] + Remove(s.stack, k))
  {
    hide ListsOk, Tied, Focused, Count;
    assert Open(s.slots, k);
    assert Count(s.stack, k) == 1;
    CountIn(s.stack);
    if s.stack[0] == k { assert s.stack == [k] + s.stack[1..]; }
  }

  /** Terminal k closed: its window and its slot are gone, and if it had the focus the next open terminal gets it. */
  function Closed(s: State, k: nat): State
    requires |s.fg| == |s.slots| == 5 && k < 5 && s.fg[k].Some?
  {
    var fg := s.fg[k := None];
    var next := AnotherFrom(fg, k, 1);
    s.(fg := fg, slots := s.slots[k := false], stack := Remove(s.stack, k),
       focus := if s.focus != s.fg[k] then s.focus else if next.Some? && next.value < 5 then fg[next.value] else None)
  }

  /** Terminal k given back to p, which waited for its child, and with it the focus. */
  function GivenBack(s: State, k: nat, p: nat): State
    requires |s.fg| == |s.slots| == 5 && k < 5 && s.fg[k].Some? && p < |s.tasks|
  {
    s.(tasks := s.tasks[p := s.tasks[p].(remain := 50)], run := [p] + s.run, child := Remove(s.child, p),
       fg := s.fg[k := Some(p)], focus := if s.focus == s.fg[k] then Some(p) else s.focus)
  }

  /** The state without the foreground task of terminal k. */
  function Gone(s: State, k: nat): State
    requires k < |s.fg| && s.fg[k].Some? && s.fg[k].value < |s.tasks|
  {
    var t := s.fg[k].value;
    s.(tasks := s.tasks[t := s.tasks[t].(valid := false)], run := Remove(s.run, t), rtc := Remove(s.rtc, t),
       reader := Remove(s.reader, t))
  }

  lemma FocusIsOn(s: State, chains: seq<seq<nat>>, k: nat)
    requires Inv(s, chains) && k < 5 && |s.fg| == 5 && s.fg[k].Some?
    ensures FocusOn(s, k) <==> s.focus == s.fg[k]
  {
    hide ListsOk, Tied, Stacked, Live;
    ForegroundIs(s, chains, k);
    if s.focus.Some? {
      var j := FocusTerminal(s, chains);
      ForegroundIs(s, chains, j);
    }
  }

  /** The foreground task of terminal k is torn down: it leaves its list and its slot, and its terminal is closed or
      given back. */
  lemma TornDown(s: State, chains: seq<seq<nat>>, k: nat) returns (t: nat)
    requires Inv(s, chains) && k < 5 && |s.fg| == |s.slots| == 5 && s.fg[k].Some?
    ensures s.fg[k] == Some(t) && Tearable(s, t) && t < |s.tasks|
    ensures var parent := s.tasks[t].parent;
            && (parent.None? ==> TearDown(s, t) == Closed(Gone(s, k), k))
            && (parent.Some? ==> parent.value < |s.tasks| && TearDown(s, t) == GivenBack(Gone(s, k), k, parent.value))
  {
    hide TasksOk, TaskOk, Tied, Stacked, Placed, Remove, AnotherFrom, ListsOk, FocusOn;
    t := s.fg[k].value;
    Sizes(s, chains);
    ForegroundIs(s, chains, k);
    ParentIs(s, chains, k);
    UserTask(s, t);
    RemoveNone(s.child, t);
    FocusIsOn(s, chains, k);
    TearDownTerminal(s, t);
    TearDownLists(s, t);
    AnotherTerminal(s.fg[k := None], k);
    if s.tasks[t].parent.Some? { OnlyThere(s, s.tasks[t].parent.value); }
  }

  /** A task that halts is torn down and its parent runs; without one the first task of the run queue does. */
  lemma HaltEnds(s: State, chains: seq<seq<nat>>) returns (k: nat)
    requires Inv(s, chains) && Enabled(s, Halt)
    ensures k < 5 && |s.fg| == |s.slots| == 5 && s.fg[k] == Some(s.running) && s.running < |s.tasks|
    ensures var parent := s.tasks[s.running].parent;
            && (parent.None? ==>
                  var s' := Closed(Gone(s, k), k);
                  s'.run != [] && Step(s, Halt) == s'.(run := IdleBehind(s'.run), running := IdleBehind(s'.run)[0]))
            && (parent.Some? ==>
                  && parent.value < |s.tasks|
                  && Step(s, Halt) == GivenBack(Gone(s, k), k, parent.value).(running := parent.value))
  {
    hide Inv, TearDown, Closed, GivenBack, Gone, Launch, IdleBehind;
    k := RunningTerminal(s, chains);
    var t := TornDown(s, chains, k);
    if s.tasks[t].parent.None? { QueueLeft(s, chains, k, t); }
  }

  lemma RunningTerminal(s: State, chains: seq<seq<nat>>) returns (k: nat)
    requires Inv(s, chains) && s.running < |s.tasks| && !s.tasks[s.running].kernel
    ensures k < 5 && |s.fg| == |s.slots| == 5 && s.fg[k] == Some(s.running)
  {
    hide TasksOk, Tied, Stacked, Placed;
    Sizes(s, chains);
    UserRuns(s);
    Foreground(s, chains, s.running);
    k := s.tasks[s.running].term.value;
  }

  lemma QueueLeft(s: State, chains: seq<seq<nat>>, k: nat, t: nat)
    requires Inv(s, chains) && Tearable(s, t) && k < 5 && s.fg[k] == Some(t)
    ensures var s1 := TearDown(s, t);
            s1.run != [] && Launch(s1) == s1.(run := IdleBehind(s1.run), running := IdleBehind(s1.run)[0])
  {
    hide TasksOk, Tied, Stacked, Placed, TearDown, Launch, IdleBehind;
    var s1 := TearDown(s, t);
    ForegroundIs(s, chains, k);
    UserTask(s, t);
    ParentIs(s, chains, k);
    TearDownLists(s, t);
    assert 1 in s1.run;
    OnlyThere(s1, s1.run[0]);
    LaunchIs(s1);
  }

  /** Closing the top window tears down its foreground task; the running task goes on. */
  lemma CloseEnds(s: State, chains: seq<seq<nat>>) returns (k: nat, t: nat)
    requires Inv(s, chains) && Enabled(s, CloseOther)
    ensures s.stack != [] && s.stack[0] == k < 5 && |s.fg| == |s.slots| == 5 && s.fg[k] == Some(t) && t < |s.tasks|
    ensures var parent := s.tasks[t].parent;
            && (parent.None? ==> Step(s, CloseOther) == Closed(Gone(s, k), k))
            && (parent.Some? ==>
                  parent.value < |s.tasks| && Step(s, CloseOther) == GivenBack(Gone(s, k), k, parent.value))
  {
    hide Inv, TearDown, Closed, GivenBack, Gone;
    RunningTask(s, chains);
    k := s.stack[0];
    t := TornDown(s, chains, k);
  }
}
