/** The window stack: a fixed array of window pointers, the open windows from the top down and then NULL. */
module Windows {
  import opened Kernel

  /** The array is the stack and then NULL. */
  predicate Holds(w: seq<Option<nat>>, stack: seq<nat>) {
    && |w| == GUI_MAX_WINDOW_NUM && |stack| <= GUI_MAX_WINDOW_NUM
    && (forall i :: 0 <= i < |stack| ==> w[i] == Some(stack[i]))
    && (forall i :: |stack| <= i < GUI_MAX_WINDOW_NUM ==> w[i] == None)
  }

  class WindowStack {
    const win: array<Option<nat>>
    ghost var stack: seq<nat>

    ghost predicate Valid()
      reads this, win
    {
      Holds(win[..], stack)
    }

    /** No window yet. */
    constructor ()
      ensures Valid() && stack == [] && fresh(win)
    {
      win := new Option<nat>[GUI_MAX_WINDOW_NUM](_ => None);
      stack := [];
    }

    /** find_window_idx: the first place of the window, or of NULL; -1 if there is none. */
    method FindWindowIdx(w: Option<nat>) returns (idx: int)
      requires win.Length == GUI_MAX_WINDOW_NUM
      ensures -1 <= idx < GUI_MAX_WINDOW_NUM
      ensures idx >= 0 ==> win[idx] == w && forall j :: 0 <= j < idx ==> win[j] != w
      ensures idx == -1 ==> forall j :: 0 <= j < GUI_MAX_WINDOW_NUM ==> win[j] != w
    {
      idx := 0;
      while idx < GUI_MAX_WINDOW_NUM
        invariant 0 <= idx <= GUI_MAX_WINDOW_NUM
        invariant forall j :: 0 <= j < idx ==> win[j] != w
      {
        if win[idx] == w { return; }
        idx := idx + 1;
      }
      idx := -1;
    }

    /** gui_new_window: below all other windows. It fails for a window that is open already and for one too many. */
    method New(k: nat) returns (ok: bool)
      requires Valid()
      modifies this`stack, win
      ensures Valid() && ok == NewWindow(old(stack), k).Some?
      ensures stack == if ok then NewWindow(old(stack), k).value else old(stack)
    {
      var idx := FindWindowIdx(Some(k));
      if idx != -1 { return false; }
      NotOpen(win[..], stack, k);
      idx := FindWindowIdx(None);
      FirstNull(win[..], stack, if idx == -1 then GUI_MAX_WINDOW_NUM else idx);
      if idx == -1 { return false; }
      win[idx] := Some(k);
      stack := stack + [k];
      ok := true;
    }

    /** The reordering in gui_activate_window: the window comes to the top, the ones above it move down. */
    method Raise(k: nat) returns (moved: bool)
      requires Valid()
      modifies this`stack, win
      ensures Valid() && moved == (k in old(stack) && old(stack)[0] != k)
      ensures stack == if moved then [k] + Remove(old(stack), k) else old(stack)
    {
      hide Remove;
      var idx := FindWindowIdx(Some(k));
      if idx == -1 {
        NotOpen(win[..], stack, k);
        return false;
      }
      FoundAt(win[..], stack, idx, k);
      if win[0] == Some(k) { return false; }
      ghost var before := win[..];
      var i := idx;
      while i >= 1
        modifies win
        invariant 0 <= i <= idx
        invariant forall j :: (0 <= j <= i || idx < j < GUI_MAX_WINDOW_NUM) ==> win[j] == before[j]
        invariant forall j :: i < j <= idx ==> win[j] == before[j - 1]
      {
        win[i] := win[i - 1];
        i := i - 1;
      }
      win[0] := Some(k);
      Raised(before, win[..], stack, idx);
      stack := [k] + Remove(stack, k);
      moved := true;
    }

    /** gui_destroy_window: the windows below move up. */
    method Destroy(k: nat) returns (ok: bool)
      requires Valid()
      modifies this`stack, win
      ensures Valid() && ok == (k in old(stack)) && stack == Remove(old(stack), k)
    {
      hide Remove;
      var idx := FindWindowIdx(Some(k));
      if idx == -1 {
        NotOpen(win[..], stack, k);
        RemoveNone(stack, k);
        return false;
      }
      FoundAt(win[..], stack, idx, k);
      ghost var before := win[..];
      var i := idx;
      while i < GUI_MAX_WINDOW_NUM - 1
        modifies win
        invariant idx <= i <= GUI_MAX_WINDOW_NUM - 1
        invariant forall j :: (0 <= j < idx || i <= j < GUI_MAX_WINDOW_NUM) ==> win[j] == before[j]
        invariant forall j :: idx <= j < i ==> win[j] == before[j + 1]
      {
        win[i] := win[i + 1];
        i := i + 1;
      }
      win[GUI_MAX_WINDOW_NUM - 1] := None;
      Destroyed(before, win[..], stack, idx);
      stack := Remove(stack, k);
      ok := true;
    }
  }

  lemma NotOpen(w: seq<Option<nat>>, stack: seq<nat>, k: nat)
    requires Holds(w, stack) && forall j :: 0 <= j < |w| ==> w[j] != Some(k)
    ensures k !in stack
  {
    forall i | 0 <= i < |stack| ensures stack[i] != k {
      assert w[i] == Some(stack[i]);
    }
  }

  lemma FoundAt(w: seq<Option<nat>>, stack: seq<nat>, idx: nat, k: nat)
    requires Holds(w, stack) && idx < |w| && w[idx] == Some(k) && forall j :: 0 <= j < idx ==> w[j] != Some(k)
    ensures idx < |stack| && stack[idx] == k && forall j :: 0 <= j < idx ==> stack[j] != k
  {
    forall j | 0 <= j < idx && j < |stack| ensures stack[j] != k {
      assert w[j] == Some(stack[j]);
    }
  }

  lemma FirstNull(w: seq<Option<nat>>, stack: seq<nat>, idx: nat)
    requires Holds(w, stack) && idx <= |w| && (forall j :: 0 <= j < idx ==> w[j] != None)
    requires idx < |w| ==> w[idx] == None
    ensures idx == |stack|
  {
    if |stack| < |w| { assert w[|stack|] == None; }
  }

  lemma RestAt(s: seq<nat>, i: nat, j: nat)
    requires i < |s| && j < |s| - 1
    ensures (s[..i] + s[i + 1..])[j] == if j < i then s[j] else s[j + 1]
  {
  }

  lemma Raised(w: seq<Option<nat>>, w': seq<Option<nat>>, s: seq<nat>, idx: nat)
    requires Holds(w, s) && idx < |s| && (forall j :: 0 <= j < idx ==> s[j] != s[idx]) && |w'| == |w|
    requires w'[0] == w[idx] && (forall j :: 1 <= j <= idx ==> w'[j] == w[j - 1])
    requires forall j :: idx < j < |w| ==> w'[j] == w[j]
    ensures Holds(w', [s[idx]] + Remove(s, s[idx]))
  {
    hide Remove;
    RemoveFirst(s, idx);
    var r := [s[idx]] + Remove(s, s[idx]);
    forall j: nat | j < |s| ensures r[j] == if j == 0 then s[idx] else if j <= idx then s[j - 1] else s[j] {
      RaisedAt(s, idx, j);
    }
  }

  lemma RaisedAt(s: seq<nat>, i: nat, j: nat)
    requires i < |s| && j < |s|
    ensures ([s[i]] + (s[..i] + s[i + 1..]))[j] == if j == 0 then s[i] else if j <= i then s[j - 1] else s[j]
  {
    if j > 0 { RestAt(s, i, j - 1); }
  }

  lemma Destroyed(w: seq<Option<nat>>, w': seq<Option<nat>>, s: seq<nat>, idx: nat)
    requires Holds(w, s) && idx < |s| && (forall j :: 0 <= j < idx ==> s[j] != s[idx]) && |w'| == |w|
    requires (forall j :: 0 <= j < idx ==> w'[j] == w[j]) && (forall j :: idx <= j < |w| - 1 ==> w'[j] == w[j + 1])
    requires w'[|w| - 1] == None
    ensures Holds(w', Remove(s, s[idx]))
  {
    hide Remove;
    RemoveFirst(s, idx);
    var r := Remove(s, s[idx]);
    forall j | 0 <= j < |r| ensures w'[j] == Some(r[j]) { RestAt(s, idx, j); }
  }
}
