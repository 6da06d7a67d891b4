/** Which window is visible where: the screen cut into cells at the edges of all windows, against a look at each
    pixel. */
module Grid {
  import opened Kernel
  import QuickSort

  const VGA_WIDTH := 1024
  const VGA_HEIGHT := 768
  const TERMINAL_WIDTH_PIXEL := 640
  const TERMINAL_HEIGHT_PIXEL := 480
  const GUI_WIN_INITIAL_TERM_X := 50
  const GUI_WIN_INITIAL_TERM_Y := 50
  const GUI_WIN_INITIAL_OFFSET_X := 50
  const GUI_WIN_INITIAL_OFFSET_Y := 50
  const GUI_WIN_LEFT_RIGHT_MARGIN := 6
  const GUI_WIN_TITLE_BAR_HEIGHT := 21
  const GUI_WIN_DOWN_MARGIN := 4
  const WIN_BUTTON_UP_MARGIN := 17
  const WIN_BUTTON_HEIGHT := 12
  const WIN_RED_B_LEFT_MARGIN := 4
  const WIN_RED_B_WIDTH := 11
  const WIN_YELLOW_B_LEFT_MARGIN := 22
  const WIN_YELLOW_B_WIDTH := 12
  const WIN_GREEN_B_LEFT_MARGIN := 41
  const WIN_GREEN_B_WIDTH := 11

  /** Upper-left corner of the body of a window. */
  datatype Window = Window(termX: int, termY: int)

  datatype CursorPosition = NotInWindow | InBody | InTitleBar | OnBorder | InRedButton | InYellowButton | InGreenButton

  // ----- Windows

  predicate InButton(x: int, y: int, win: Window, left: int, width: int) {
    && win.termX + left <= x < win.termX + left + width
    && win.termY - WIN_BUTTON_UP_MARGIN <= y < win.termY - WIN_BUTTON_UP_MARGIN + WIN_BUTTON_HEIGHT
  }

  /** check_inside_window. */
  function CheckInsideWindow(x: int, y: int, win: Option<Window>): CursorPosition {
    if win.None? then NotInWindow
    else
      var w := win.value;
      if x < w.termX - GUI_WIN_LEFT_RIGHT_MARGIN || x >= w.termX + TERMINAL_WIDTH_PIXEL + GUI_WIN_LEFT_RIGHT_MARGIN
        || y < w.termY - GUI_WIN_TITLE_BAR_HEIGHT
        || y >= w.termY + TERMINAL_HEIGHT_PIXEL + GUI_WIN_DOWN_MARGIN then NotInWindow
      else if y < w.termY then
        if InButton(x, y, w, WIN_RED_B_LEFT_MARGIN, WIN_RED_B_WIDTH) then InRedButton
        else if InButton(x, y, w, WIN_YELLOW_B_LEFT_MARGIN, WIN_YELLOW_B_WIDTH) then InYellowButton
        else if InButton(x, y, w, WIN_GREEN_B_LEFT_MARGIN, WIN_GREEN_B_WIDTH) then InGreenButton
        else InTitleBar
      else if w.termX <= x < w.termX + TERMINAL_WIDTH_PIXEL
          && w.termY <= y < w.termY + TERMINAL_HEIGHT_PIXEL then InBody
      else OnBorder
  }

  /** The pixel belongs to the terminal itself. */
  predicate Covers(win: Window, x: int, y: int) {
    win.termX <= x < win.termX + TERMINAL_WIDTH_PIXEL && win.termY <= y < win.termY + TERMINAL_HEIGHT_PIXEL
  }

  /** is_valid_position: the window with its frame is on the screen. */
  predicate IsValidPosition(termX: int, termY: int) {
    && termX - GUI_WIN_LEFT_RIGHT_MARGIN >= 0 && termX + TERMINAL_WIDTH_PIXEL + GUI_WIN_LEFT_RIGHT_MARGIN <= VGA_WIDTH
    && termY - GUI_WIN_TITLE_BAR_HEIGHT >= 0 && termY + TERMINAL_HEIGHT_PIXEL + GUI_WIN_DOWN_MARGIN <= VGA_HEIGHT
  }

  /** The position on the screen of a valid window is the body exactly where the body is, and nothing at all exactly
      outside of its frame, which lies on the screen. */
  lemma PositionMeans(x: int, y: int, win: Window)
    ensures CheckInsideWindow(x, y, Some(win)) == InBody <==> Covers(win, x, y)
    ensures IsValidPosition(win.termX, win.termY) <==>
      forall x, y :: CheckInsideWindow(x, y, Some(win)) != NotInWindow ==> 0 <= x < VGA_WIDTH && 0 <= y < VGA_HEIGHT
  {
    var left := win.termX - GUI_WIN_LEFT_RIGHT_MARGIN;
    var right := win.termX + TERMINAL_WIDTH_PIXEL + GUI_WIN_LEFT_RIGHT_MARGIN - 1;
    var up, down := win.termY - GUI_WIN_TITLE_BAR_HEIGHT, win.termY + TERMINAL_HEIGHT_PIXEL + GUI_WIN_DOWN_MARGIN - 1;
    assert CheckInsideWindow(left, up, Some(win)) != NotInWindow;
    assert CheckInsideWindow(right, down, Some(win)) != NotInWindow;
  }

  /** Of the 652 columns and 505 rows of a window, the 640 times 480 in the middle are the body; the 21 rows above it
      are the title bar, with three buttons 12 rows high; 6 columns on either side and 4 rows below are border. */
  lemma FrameMeans(win: Window, i: int, j: int)
    ensures CheckInsideWindow(win.termX + i, win.termY + j, Some(win))
            == if !(-6 <= i < 646 && -21 <= j < 484) then NotInWindow
               else if 0 <= i < 640 && 0 <= j < 480 then InBody
               else if j >= 0 then OnBorder
               else if -17 <= j < -5 && 4 <= i < 15 then InRedButton
               else if -17 <= j < -5 && 22 <= i < 34 then InYellowButton
               else if -17 <= j < -5 && 41 <= i < 52 then InGreenButton
               else InTitleBar
    ensures IsValidPosition(win.termX, win.termY) <==> 6 <= win.termX <= 378 && 21 <= win.termY <= 284
  {
  }

  class GuiWindow {
    var termX: int
    var termY: int

    predicate Valid()
      reads this
    {
      IsValidPosition(termX, termY)
    }

    /** Where gui_new_window puts the window at index idx of the stack. */
    constructor (idx: nat)
      requires idx < GUI_MAX_WINDOW_NUM
      ensures Valid() && termX == termY == 50 + 50 * idx
    {
      termX := GUI_WIN_INITIAL_TERM_X + GUI_WIN_INITIAL_OFFSET_X * idx;
      termY := GUI_WIN_INITIAL_TERM_Y + GUI_WIN_INITIAL_OFFSET_Y * idx;
    }

    /** gui_handle_mouse_move while the title bar is held: the window moves unless it would leave the screen. */
    method MouseMove(deltaX: int, deltaY: int) returns (result: int)
      requires Valid()
      modifies this
      ensures Valid() && (result == 0 || result == -1)
      ensures result == 0 <==> IsValidPosition(old(termX) + deltaX, old(termY) + deltaY)
      ensures termX == (if result == 0 then old(termX) + deltaX else old(termX))
      ensures termY == (if result == 0 then old(termY) + deltaY else old(termY))
    {
      if IsValidPosition(termX + deltaX, termY + deltaY) {
        termX := termX + deltaX;
        termY := termY + deltaY;
        return 0;
      }
      return -1;
    }
  }

  // ----- Cells

  predicate Ascending(g: seq<int>) {
    forall i, j :: 0 <= i < j < |g| ==> g[i] <= g[j]
  }

  /** Position x is in the i-th of the stretches that g cuts. */
  predicate InStretch(g: seq<int>, i: int, x: int) {
    0 <= i < |g| - 1 && g[i] <= x < g[i + 1]
  }

  /** Each position is in exactly one stretch. */
  lemma {:induction false} OneStretch(g: seq<int>, x: int) returns (i: nat)
    requires |g| >= 2 && Ascending(g) && g[0] <= x < g[|g| - 1]
    ensures InStretch(g, i, x) && forall j :: InStretch(g, j, x) ==> j == i
  {
    if g[1] <= x {
      i := OneStretch(g[1..], x);
      i := i + 1;
    } else {
      i := 0;
    }
    forall j ensures j != i ==> !InStretch(g, j, x) {
      if 0 <= j < i { assert g[j + 1] <= g[i]; }
      if i < j < |g| - 1 { assert g[i + 1] <= g[j]; }
    }
  }

  /** A cut is on the same side of all positions of a stretch. */
  lemma SameSide(g: seq<int>, i: int, x: int, cut: int)
    requires Ascending(g) && InStretch(g, i, x) && cut in g
    ensures cut <= x <==> cut <= g[i]
  {
    var m :| 0 <= m < |g| && g[m] == cut;
    if m > i { assert g[i + 1] <= g[m]; }
  }

  /** The first window, from the top, whose body the pixel belongs to. */
  function Topmost(stack: seq<Option<Window>>, x: int, y: int): Option<nat> {
    if stack == [] then None
    else if stack[0].Some? && Covers(stack[0].value, x, y) then Some(0)
    else var below := Topmost(stack[1..], x, y); if below.Some? then Some(below.value + 1) else None
  }

  /** Both edges of every window are cuts. */
  predicate Cut(stack: seq<Option<Window>>, gx: seq<int>, gy: seq<int>) {
    forall k :: 0 <= k < |stack| && stack[k].Some? ==>
      && stack[k].value.termX in gx && stack[k].value.termX + TERMINAL_WIDTH_PIXEL in gx
      && stack[k].value.termY in gy && stack[k].value.termY + TERMINAL_HEIGHT_PIXEL in gy
  }

  /** The window that is visible at the corner of a cell is visible all over the cell. */
  lemma {:induction false} CellVisible(stack: seq<Option<Window>>, gx: seq<int>, gy: seq<int>, i: int, j: int, x: int,
                                       y: int)
    requires Ascending(gx) && Ascending(gy) && Cut(stack, gx, gy) && InStretch(gx, i, x) && InStretch(gy, j, y)
    ensures Topmost(stack, x, y) == Topmost(stack, gx[i], gy[j])
  {
    if stack != [] {
      if stack[0].Some? {
        var w := stack[0].value;
        SameSide(gx, i, x, w.termX);
        SameSide(gx, i, x, w.termX + TERMINAL_WIDTH_PIXEL);
        SameSide(gy, j, y, w.termY);
        SameSide(gy, j, y, w.termY + TERMINAL_HEIGHT_PIXEL);
      }
      CellVisible(stack[1..], gx, gy, i, j, x, y);
    }
  }

  lemma {:induction false} TopmostIs(stack: seq<Option<Window>>, x: int, y: int, i: nat)
    requires i <= |stack| && forall k :: 0 <= k < i ==> CheckInsideWindow(x, y, stack[k]) != InBody
    requires i < |stack| ==> CheckInsideWindow(x, y, stack[i]) == InBody
    ensures Topmost(stack, x, y) == if i < |stack| then Some(i) else None
  {
    if stack != [] {
      if stack[0].Some? { PositionMeans(x, y, stack[0].value); }
      if i > 0 { TopmostIs(stack[1..], x, y, i - 1); }
    }
  }

  /** find_visible_win_on. */
  method FindVisibleWinOn(stack: seq<Option<Window>>, x: int, y: int) returns (win: Option<nat>)
    ensures win == Topmost(stack, x, y)
  {
    var i := 0;
    while i < |stack|
      invariant 0 <= i <= |stack| && forall k :: 0 <= k < i ==> CheckInsideWindow(x, y, stack[k]) != InBody
    {
      if CheckInsideWindow(x, y, stack[i]) == InBody {
        TopmostIs(stack, x, y, i);
        return Some(i);
      }
      i := i + 1;
    }
    TopmostIs(stack, x, y, i);
    win := None;
  }

  predicate ValidStack(stack: seq<Option<Window>>) {
    && |stack| == GUI_MAX_WINDOW_NUM
    && forall k :: 0 <= k < |stack| && stack[k].Some? ==>
         IsValidPosition(stack[k].value.termX, stack[k].value.termY)
  }

  predicate Within(g: seq<int>, size: int) {
    |g| >= 2 && 0 in g && size in g && forall k :: 0 <= k < |g| ==> 0 <= g[k] <= size
  }

  lemma Ends(g: seq<int>, size: int)
    requires Within(g, size) && Ascending(g)
    ensures g[0] == 0 && g[|g| - 1] == size
  {
    var z :| 0 <= z < |g| && g[z] == 0;
    var w :| 0 <= w < |g| && g[w] == size;
    assert g[0] <= g[z] && g[w] <= g[|g| - 1];
  }

  class Renderer {
    var gridCount: int
    const gridX: array<int>
    const gridY: array<int>
    const grid: array2<Option<nat>>

    constructor ()
      ensures Sized() && fresh(gridX) && fresh(gridY) && fresh(grid)
    {
      gridX := new int[GUI_MAX_WINDOW_NUM * 2 + 2];
      gridY := new int[GUI_MAX_WINDOW_NUM * 2 + 2];
      grid := new Option<nat>[GUI_MAX_WINDOW_NUM * 2 + 1, GUI_MAX_WINDOW_NUM * 2 + 1]((_, _) => None);
    }

    predicate Sized() {
      && gridX.Length == gridY.Length == GUI_MAX_WINDOW_NUM * 2 + 2 && gridX != gridY
      && grid.Length0 == grid.Length1 == GUI_MAX_WINDOW_NUM * 2 + 1
    }

    /** The edges of all windows and of the screen, in ascending order. */
    method Cuts(stack: seq<Option<Window>>)
      requires Sized() && ValidStack(stack)
      modifies this`gridCount, gridX, gridY
      ensures 1 <= gridCount <= GUI_MAX_WINDOW_NUM * 2 + 1
      ensures Ascending(gridX[..gridCount + 1]) && Ascending(gridY[..gridCount + 1])
      ensures Within(gridX[..gridCount + 1], VGA_WIDTH) && Within(gridY[..gridCount + 1], VGA_HEIGHT)
      ensures Cut(stack, gridX[..gridCount + 1], gridY[..gridCount + 1])
    {
      hide Within, Cut, Ascending;
      Generate(stack);
      var n := gridCount;
      ghost var x0, y0 := gridX[..], gridY[..];
      QuickSort.Sort(gridX, 0, n);
      ghost var x1 := gridX[..];
      QuickSort.Sort(gridY, 0, n);
      QuickSort.SameElements(x0, x1, 0, n + 1);
      QuickSort.SameElements(y0, gridY[..], 0, n + 1);
      assert gridX[..n + 1] == x1[0..n + 1] && x0[..n + 1] == x0[0..n + 1];
      assert gridY[..n + 1] == gridY[..][0..n + 1] && y0[..n + 1] == y0[0..n + 1];
      SameWithin(x0[..n + 1], gridX[..n + 1], VGA_WIDTH);
      SameWithin(y0[..n + 1], gridY[..n + 1], VGA_HEIGHT);
      SameCut(stack, x0[..n + 1], gridX[..n + 1], y0[..n + 1], gridY[..n + 1]);
      SortedPrefix(x1, n);
      SortedPrefix(gridY[..], n);
    }

    /** The edges of one more window. */
    method AddCuts(w: Window)
      requires Sized() && 1 <= gridCount <= GUI_MAX_WINDOW_NUM * 2 - 1 && IsValidPosition(w.termX, w.termY)
      requires Within(gridX[..gridCount + 1], VGA_WIDTH) && Within(gridY[..gridCount + 1], VGA_HEIGHT)
      modifies this`gridCount, gridX, gridY
      ensures gridCount == old(gridCount) + 2
      ensures gridX[..gridCount + 1] == old(gridX[..gridCount + 1]) + [w.termX, w.termX + TERMINAL_WIDTH_PIXEL]
      ensures gridY[..gridCount + 1] == old(gridY[..gridCount + 1]) + [w.termY, w.termY + TERMINAL_HEIGHT_PIXEL]
      ensures Within(gridX[..gridCount + 1], VGA_WIDTH) && Within(gridY[..gridCount + 1], VGA_HEIGHT)
    {
      hide Within;
      gridX[gridCount + 1] := w.termX;
      gridY[gridCount + 1] := w.termY;
      gridX[gridCount + 2] := w.termX + TERMINAL_WIDTH_PIXEL;
      gridY[gridCount + 2] := w.termY + TERMINAL_HEIGHT_PIXEL;
      gridCount := gridCount + 2;
      assert gridX[..gridCount + 1] == old(gridX[..gridCount + 1]) + [w.termX, w.termX + TERMINAL_WIDTH_PIXEL];
      assert gridY[..gridCount + 1] == old(gridY[..gridCount + 1]) + [w.termY, w.termY + TERMINAL_HEIGHT_PIXEL];
      MoreWithin(old(gridX[..gridCount + 1]), w.termX, w.termX + TERMINAL_WIDTH_PIXEL, VGA_WIDTH);
      MoreWithin(old(gridY[..gridCount + 1]), w.termY, w.termY + TERMINAL_HEIGHT_PIXEL, VGA_HEIGHT);
    }

    /** The first part of render_windows. */
    method Generate(stack: seq<Option<Window>>)
      requires Sized() && ValidStack(stack)
      modifies this`gridCount, gridX, gridY
      ensures 1 <= gridCount <= GUI_MAX_WINDOW_NUM * 2 + 1
      ensures Within(gridX[..gridCount + 1], VGA_WIDTH) && Within(gridY[..gridCount + 1], VGA_HEIGHT)
      ensures Cut(stack, gridX[..gridCount + 1], gridY[..gridCount + 1])
    {
      hide Within, Cut;
      gridCount := 1;
      gridX[0], gridY[0], gridX[1], gridY[1] := 0, 0, VGA_WIDTH, VGA_HEIGHT;
      var i := 0;
      FirstCuts(gridX[..2], VGA_WIDTH);
      FirstCuts(gridY[..2], VGA_HEIGHT);
      NoCuts(gridX[..2], gridY[..2]);
      while i < GUI_MAX_WINDOW_NUM
        invariant 0 <= i <= GUI_MAX_WINDOW_NUM && 1 <= gridCount <= 2 * i + 1
        invariant Within(gridX[..gridCount + 1], VGA_WIDTH) && Within(gridY[..gridCount + 1], VGA_HEIGHT)
        invariant Cut(stack[..i], gridX[..gridCount + 1], gridY[..gridCount + 1])
      {
        var win := stack[i];
        MoreCut(stack, i, gridX[..gridCount + 1], gridY[..gridCount + 1]);
        if win.Some? { AddCuts(win.value); }
        i := i + 1;
      }
      assert stack[..i] == stack;
    }

    /** One column of the grid. */
    method FillColumn(stack: seq<Option<Window>>, idx: int)
      requires Sized() && 0 <= idx < gridCount <= GUI_MAX_WINDOW_NUM * 2 + 1
      modifies grid
      ensures forall j :: 0 <= j < gridCount ==> grid[idx, j] == Topmost(stack, gridX[idx], gridY[j])
      ensures forall i, j :: 0 <= i < grid.Length0 && 0 <= j < grid.Length1 && i != idx ==>
              grid[i, j] == old(grid[i, j])
    {
      hide Topmost;
      var idy := 0;
      while idy < gridCount
        modifies grid
        invariant 0 <= idy <= gridCount
        invariant forall j :: 0 <= j < idy ==> grid[idx, j] == Topmost(stack, gridX[idx], gridY[j])
        invariant forall i, j :: 0 <= i < grid.Length0 && 0 <= j < grid.Length1 && i != idx ==>
                  grid[i, j] == old(grid[i, j])
      {
        grid[idx, idy] := FindVisibleWinOn(stack, gridX[idx], gridY[idy]);
        idy := idy + 1;
      }
    }

    /** The loops that fill the grid. */
    method FillCells(stack: seq<Option<Window>>)
      requires Sized() && 1 <= gridCount <= GUI_MAX_WINDOW_NUM * 2 + 1
      modifies grid
      ensures forall i, j :: 0 <= i < gridCount && 0 <= j < gridCount ==>
              grid[i, j] == Topmost(stack, gridX[i], gridY[j])
    {
      hide Topmost;
      var idx := 0;
      while idx < gridCount
        modifies grid
        invariant 0 <= idx <= gridCount
        invariant forall i, j :: 0 <= i < idx && 0 <= j < gridCount ==> grid[i, j] == Topmost(stack, gridX[i], gridY[j])
      {
        FillColumn(stack, idx);
        idx := idx + 1;
      }
    }

    /** render_windows up to the filled grid. Then the cells tile the screen, and the window recorded for the cell of a
        pixel is the topmost one whose body the pixel belongs to. */
    method Fill(stack: seq<Option<Window>>)
      requires Sized() && ValidStack(stack)
      modifies this`gridCount, gridX, gridY, grid
      ensures 1 <= gridCount <= GUI_MAX_WINDOW_NUM * 2 + 1
      ensures forall x, y :: 0 <= x < VGA_WIDTH && 0 <= y < VGA_HEIGHT ==> Shown(stack, x, y)
    {
      hide Topmost, Cut, Within, Ascending, Shown;
      Cuts(stack);
      FillCells(stack);
      forall x, y | 0 <= x < VGA_WIDTH && 0 <= y < VGA_HEIGHT ensures Shown(stack, x, y) {
        ShownAt(stack, x, y);
      }
    }

    /** Exactly one cell holds the pixel, and its window is the one that covers the pixel. */
    predicate InCell(i: int, j: int, x: int, y: int)
      requires 0 <= gridCount < gridX.Length && gridCount < gridY.Length
      reads this, gridX, gridY
    {
      InStretch(gridX[..gridCount + 1], i, x) && InStretch(gridY[..gridCount + 1], j, y)
    }

    ghost predicate Shown(stack: seq<Option<Window>>, x: int, y: int)
      reads this, gridX, gridY, grid
    {
      && Sized() && 1 <= gridCount <= GUI_MAX_WINDOW_NUM * 2 + 1
      && exists i, j ::
           && InCell(i, j, x, y) && grid[i, j] == Topmost(stack, x, y)
           && forall i', j' :: InCell(i', j', x, y) ==> i' == i && j' == j
    }

    lemma ShownAt(stack: seq<Option<Window>>, x: int, y: int)
      requires Sized() && 1 <= gridCount <= GUI_MAX_WINDOW_NUM * 2 + 1
      requires Ascending(gridX[..gridCount + 1]) && Ascending(gridY[..gridCount + 1])
      requires Within(gridX[..gridCount + 1], VGA_WIDTH) && Within(gridY[..gridCount + 1], VGA_HEIGHT)
      requires Cut(stack, gridX[..gridCount + 1], gridY[..gridCount + 1])
      requires forall i, j :: 0 <= i < gridCount && 0 <= j < gridCount ==>
               grid[i, j] == Topmost(stack, gridX[i], gridY[j])
      requires 0 <= x < VGA_WIDTH && 0 <= y < VGA_HEIGHT
      ensures Shown(stack, x, y)
    {
      hide Cut, Ascending, Topmost, Within;
      var gx, gy := gridX[..gridCount + 1], gridY[..gridCount + 1];
      Ends(gx, VGA_WIDTH);
      Ends(gy, VGA_HEIGHT);
      var i := OneStretch(gx, x);
      var j := OneStretch(gy, y);
      CellVisible(stack, gx, gy, i, j, x, y);
      assert InCell(i, j, x, y);
    }
  }

  lemma FirstCuts(g: seq<int>, size: int)
    requires g == [0, size] && size >= 0
    ensures Within(g, size)
  {
    assert g[0] == 0 && g[1] == size;
  }

  lemma NoCuts(gx: seq<int>, gy: seq<int>)
    ensures Cut([], gx, gy)
  {
  }

  lemma MoreWithin(g: seq<int>, a: int, b: int, size: int)
    requires Within(g, size) && 0 <= a <= size && 0 <= b <= size
    ensures Within(g + [a, b], size)
  {
  }

  lemma MoreCut(stack: seq<Option<Window>>, i: nat, gx: seq<int>, gy: seq<int>)
    requires i < |stack| && Cut(stack[..i], gx, gy)
    ensures stack[i].None? ==> Cut(stack[..i + 1], gx, gy)
    ensures stack[i].Some? ==> var w := stack[i].value;
      Cut(stack[..i + 1], gx + [w.termX, w.termX + TERMINAL_WIDTH_PIXEL],
          gy + [w.termY, w.termY + TERMINAL_HEIGHT_PIXEL])
  {
    assert forall k :: 0 <= k < i ==> stack[..i + 1][k] == stack[..i][k];
    if stack[i].Some? {
      var w := stack[i].value;
      var hx, hy := gx + [w.termX, w.termX + TERMINAL_WIDTH_PIXEL], gy + [w.termY, w.termY + TERMINAL_HEIGHT_PIXEL];
      assert hx[|gx|] == w.termX && hx[|gx| + 1] == w.termX + TERMINAL_WIDTH_PIXEL;
      assert hy[|gy|] == w.termY && hy[|gy| + 1] == w.termY + TERMINAL_HEIGHT_PIXEL;
      assert forall c :: c in gx ==> c in hx;
      assert forall c :: c in gy ==> c in hy;
    }
  }

  lemma SameWithin(g: seq<int>, h: seq<int>, size: int)
    requires |g| == |h| && Within(g, size) && forall c :: c in g <==> c in h
    ensures Within(h, size)
  {
    forall k | 0 <= k < |h| ensures 0 <= h[k] <= size {
      assert h[k] in h;
      var m :| 0 <= m < |g| && g[m] == h[k];
    }
  }

  lemma SameCut(stack: seq<Option<Window>>, gx: seq<int>, hx: seq<int>, gy: seq<int>, hy: seq<int>)
    requires Cut(stack, gx, gy) && (forall c :: c in gx <==> c in hx) && forall c :: c in gy <==> c in hy
    ensures Cut(stack, hx, hy)
  {
  }

  lemma SortedPrefix(s: seq<int>, n: int)
    requires 0 <= n < |s| && QuickSort.SortedBetween(s, 0, n)
    ensures Ascending(s[..n + 1])
  {
  }
}
