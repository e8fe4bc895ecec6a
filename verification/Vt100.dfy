/**
 * The terminal emulation core of sw/common/zvt100.c: an 80 x 25 grid, a cursor
 * with deferred wrap, and the escape sequence parser that drives them.
 */
module Vt100 {
  import opened Words

  const COLS: int := 80
  const ROWS: int := 25
  const CSI_MAX_PARAMS: int := 8

  const SPACE: Byte := 0x20
  const ESC: Byte := 0x1b

  datatype Cell = Cell(ch: Byte, reverse: bool)
  datatype ParserState = Normal | Escape | Csi

  /** vt_screen_t as a value; CSI parameters are unbounded integers. */
  datatype Screen = Screen(
    rows: seq<seq<Cell>>, x: int, y: int, reverse: bool,
    pstate: ParserState, params: seq<int>, has: seq<bool>, count: int,
    dirty: seq<bool>)

  /** The bounds every byte keeps. */
  ghost predicate WellFormed(s: Screen) {
    && |s.rows| == ROWS && (forall r | 0 <= r < ROWS :: |s.rows[r]| == COLS)
    && 0 <= s.x <= COLS && 0 <= s.y < ROWS
    && |s.params| == |s.has| == CSI_MAX_PARAMS && 0 <= s.count < CSI_MAX_PARAMS
    && (forall i | 0 <= i < CSI_MAX_PARAMS :: s.params[i] >= 0)
    && |s.dirty| == ROWS
  }

  predicate Printable(ch: Byte) { 0x20 <= ch < 0x7f }

  function Blank(reverse: bool): Cell { Cell(SPACE, reverse) }

  function BlankRow(reverse: bool): (r: seq<Cell>)
    ensures |r| == COLS
    ensures forall i | 0 <= i < COLS :: r[i] == Blank(reverse)
  {
    seq(COLS, i requires 0 <= i => Blank(reverse))
  }

  function BlankRows(n: nat): (rows: seq<seq<Cell>>)
    ensures |rows| == n && forall r | 0 <= r < n :: rows[r] == BlankRow(false)
  {
    if n == 0 then [] else BlankRows(n - 1) + [BlankRow(false)]
  }

  function AllDirty(): (d: seq<bool>)
    ensures |d| == ROWS
  {
    seq(ROWS, i requires 0 <= i => true)
  }

  /** vt_init */
  function Init(): (s: Screen)
    ensures WellFormed(s)
  {
    Screen(BlankRows(ROWS), 0, 0, false,
           Normal, seq(CSI_MAX_PARAMS, i requires 0 <= i => 0), seq(CSI_MAX_PARAMS, i requires 0 <= i => false), 0,
           AllDirty())
  }

  /** scroll_up */
  function ScrollUp(s: Screen): (r: Screen)
    requires WellFormed(s)
    ensures WellFormed(r)
  {
    s.(rows := s.rows[1..] + [BlankRow(s.reverse)], dirty := AllDirty())
  }

  /** newline: keeps the column. */
  function Newline(s: Screen): (r: Screen)
    requires WellFormed(s)
    ensures WellFormed(r)
  {
    if s.y + 1 >= ROWS then ScrollUp(s.(y := ROWS - 1)) else s.(y := s.y + 1)
  }

  function SetRow(s: Screen, r: int, row: seq<Cell>): (t: Screen)
    requires WellFormed(s) && 0 <= r < ROWS && |row| == COLS
    ensures WellFormed(t)
  {
    s.(rows := s.rows[r := row], dirty := s.dirty[r := true])
  }

  /** put_char: a pending wrap happens before the character is written. */
  function PutChar(s: Screen, c: Byte): (r: Screen)
    requires WellFormed(s)
    ensures WellFormed(r)
  {
    var t := if s.x >= COLS then Newline(s.(x := 0)) else s;
    SetRow(t, t.y, t.rows[t.y][t.x := Cell(c, t.reverse)]).(x := t.x + 1)
  }

  function Erased(row: seq<Cell>, from: int, to: int, reverse: bool): (r: seq<Cell>)
    requires |row| == COLS
    ensures |r| == COLS
    ensures forall i | 0 <= i < COLS :: r[i] == if from <= i < to then Blank(reverse) else row[i]
  {
    seq(COLS, i requires 0 <= i < COLS => if from <= i < to then Blank(reverse) else row[i])
  }

  function Param(s: Screen, i: int, default: int): int
    requires WellFormed(s)
  {
    if 0 <= i < CSI_MAX_PARAMS && s.has[i] then s.params[i] else default
  }

  function AtLeastOne(n: int): int { if n < 1 then 1 else n }
  function AtMost(n: int, limit: int): int { if n > limit then limit else n }

  /** ED: which columns of row `r` mode `mode` erases, as a half-open range. */
  function EraseDisplayRange(s: Screen, mode: int, r: int): (int, int) {
    if mode == 0 then
      if r < s.y then (0, 0) else if r == s.y then (s.x, COLS) else (0, COLS)
    else if mode == 1 then
      if r < s.y then (0, COLS) else if r == s.y then (0, AtMost(s.x + 1, COLS)) else (0, 0)
    else (0, COLS)
  }

  function EraseDisplay(s: Screen, mode: int): (t: Screen)
    requires WellFormed(s)
    ensures WellFormed(t)
  {
    s.(rows := seq(ROWS, r requires 0 <= r < ROWS =>
         Erased(s.rows[r], EraseDisplayRange(s, mode, r).0, EraseDisplayRange(s, mode, r).1, s.reverse)),
       dirty := AllDirty())
  }

  /** EL: the cursor's row only. */
  function EraseLine(s: Screen, mode: int): (t: Screen)
    requires WellFormed(s)
    ensures WellFormed(t)
  {
    var range := EraseDisplayRange(s, mode, s.y);
    SetRow(s, s.y, Erased(s.rows[s.y], range.0, range.1, s.reverse))
  }

  /** SGR: the reverse attribute after parameters [i, n). */
  function Sgr(s: Screen, reverse: bool, i: int, n: int): bool
    requires WellFormed(s)
    decreases n - i
  {
    if i >= n then reverse
    else
      var p := Param(s, i, 0);
      Sgr(s, if p == 7 then true else if p == 0 || p == 27 then false else reverse, i + 1, n)
  }

  /** CUU, CUD, CUF, CUB and CUP; other final bytes do not move the cursor. */
  function Move(s: Screen, final: Byte): (t: Screen)
    requires WellFormed(s)
    ensures WellFormed(t)
  {
    var n := AtLeastOne(Param(s, 0, 1));
    if final == 'A' as int then s.(y := if s.y - n < 0 then 0 else s.y - n)
    else if final == 'B' as int then s.(y := AtMost(s.y + n, ROWS - 1))
    else if final == 'C' as int then s.(x := AtMost(s.x + n, COLS - 1))
    else if final == 'D' as int then s.(x := if s.x - n < 0 then 0 else s.x - n)
    else if final == 'H' as int || final == 'f' as int then
      s.(y := AtMost(n - 1, ROWS - 1), x := AtMost(AtLeastOne(Param(s, 1, 1)) - 1, COLS - 1))
    else s
  }

  /** csi_dispatch */
  function Dispatch(s: Screen, final: Byte): (t: Screen)
    requires WellFormed(s)
    ensures WellFormed(t)
  {
    if final == 'J' as int then EraseDisplay(s, Param(s, 0, 0))
    else if final == 'K' as int then EraseLine(s, Param(s, 0, 0))
    else if final == 'm' as int then s.(reverse := Sgr(s, s.reverse, 0, AtMost(s.count + 1, CSI_MAX_PARAMS)))
    else Move(s, final)
  }

  /** The VT_PSTATE_NORMAL case of vt_feed_byte. */
  function FeedNormal(s: Screen, c: Byte): (t: Screen)
    requires WellFormed(s)
    ensures WellFormed(t)
  {
    if c == ESC then s.(pstate := Escape)
    else if c == 0x0d then s.(x := 0)
    else if c == 0x0a then Newline(s)
    else if c == 0x08 then (if s.x > 0 then s.(x := s.x - 1) else s)
    else if c == 0x09 then s.(x := AtMost((s.x / 8 + 1) * 8, COLS - 1))
    else if Printable(c) then PutChar(s, c)
    else s
  }

  /** The VT_PSTATE_CSI case of vt_feed_byte. */
  function FeedCsi(s: Screen, c: Byte): (t: Screen)
    requires WellFormed(s)
    ensures WellFormed(t)
  {
    if '0' as int <= c <= '9' as int then
      s.(params := s.params[s.count := s.params[s.count] * 10 + (c - '0' as int)], has := s.has[s.count := true])
    else if c == ';' as int then
      (if s.count < CSI_MAX_PARAMS - 1 then s.(count := s.count + 1) else s)
    else Dispatch(s, c).(pstate := Normal)
  }

  /** vt_feed_byte */
  function FeedByte(s: Screen, c: Byte): (t: Screen)
    requires WellFormed(s)
    ensures WellFormed(t)
  {
    match s.pstate
    case Normal => FeedNormal(s, c)
    case Escape =>
      if c == '[' as int then
        s.(pstate := Csi, count := 0, params := Init().params, has := Init().has)
      else s.(pstate := Normal)
    case Csi => FeedCsi(s, c)
  }

  /** vt_feed */
  function Feed(s: Screen, bytes: seq<Byte>): (t: Screen)
    requires WellFormed(s)
    ensures WellFormed(t)
    decreases |bytes|
  {
    if bytes == [] then s else Feed(FeedByte(s, bytes[0]), bytes[1..])
  }

  lemma {:induction false} FeedAppend(s: Screen, a: seq<Byte>, b: seq<Byte>)
    requires WellFormed(s)
    ensures Feed(s, a + b) == Feed(Feed(s, a), b)
    decreases |a|
  {
    if a == [] {
      assert a + b == b;
    } else {
      assert (a + b)[0] == a[0] && (a + b)[1..] == a[1..] + b;
      FeedAppend(FeedByte(s, a[0]), a[1..], b);
    }
  }

  lemma FeedOneByte(s: Screen, c: Byte)
    requires WellFormed(s)
    ensures Feed(s, [c]) == FeedByte(s, c)
  {
    assert [c][1..] == [];
    assert Feed(s, [c]) == Feed(FeedByte(s, c), []);
  }

  // ----- parameters that a 32-bit int holds

  const INT_MAX: int := 0x7FFF_FFFF

  /** What a sum comes to in a 32-bit int. */
  function Int32(x: int): int { (x + 0x8000_0000) % 0x1_0000_0000 - 0x8000_0000 }

  /** The cursor after CUU, CUD, CUF, CUB or CUP, as (x, y), with 32-bit sums. */
  function Moved32(s: Screen, final: Byte): (int, int)
    requires WellFormed(s)
  {
    var n := AtLeastOne(Param(s, 0, 1));
    if final == 'A' as int then (s.x, if Int32(s.y - n) < 0 then 0 else Int32(s.y - n))
    else if final == 'B' as int then (s.x, AtMost(Int32(s.y + n), ROWS - 1))
    else if final == 'C' as int then (AtMost(Int32(s.x + n), COLS - 1), s.y)
    else if final == 'D' as int then (if Int32(s.x - n) < 0 then 0 else Int32(s.x - n), s.y)
    else if final == 'H' as int || final == 'f' as int then
      (AtMost(Int32(AtLeastOne(Param(s, 1, 1)) - 1), COLS - 1), AtMost(Int32(n - 1), ROWS - 1))
    else (s.x, s.y)
  }

  ghost predicate ParamsFit(s: Screen, limit: int) {
    forall i | 0 <= i < |s.params| :: 0 <= s.params[i] <= limit
  }

  lemma SumFits(x: int)
    requires -INT_MAX <= x <= 2 * INT_MAX
    ensures Int32(x) == (if x <= INT_MAX then x else x - 0x1_0000_0000)
  {
  }

  /** With parameters that fit, the 32-bit cursor is this one exactly when moving down or right does not overflow. */
  lemma CursorFitsExactlyWhen(s: Screen, final: Byte)
    requires WellFormed(s) && ParamsFit(s, INT_MAX)
    ensures var n := AtLeastOne(Param(s, 0, 1));
            Moved32(s, final) == (Move(s, final).x, Move(s, final).y) <==>
            !(final == 'B' as int && s.y + n > INT_MAX) && !(final == 'C' as int && s.x + n > INT_MAX)
  {
    var n, m := AtLeastOne(Param(s, 0, 1)), AtLeastOne(Param(s, 1, 1));
    SumFits(s.y - n);
    SumFits(s.y + n);
    SumFits(s.x + n);
    SumFits(s.x - n);
    SumFits(n - 1);
    SumFits(m - 1);
  }

  /** CUD by 2^31 - 1 from the second row leaves the cursor above the screen. */
  lemma CursorDownOverflows(s: Screen)
    requires WellFormed(s) && s.y == 1 && Param(s, 0, 1) == INT_MAX
    ensures Moved32(s, 'B' as int).1 < 0
  {
  }

  predicate IsDigit(c: Byte) { '0' as int <= c <= '9' as int }

  function PowerOfTen(n: nat): nat { if n == 0 then 1 else 10 * PowerOfTen(n - 1) }

  /** A parameter of `k` digits is below ten to the power of `k`; nine digits always fit. */
  lemma {:induction false} DigitsFit(s: Screen, digits: seq<Byte>, k: nat)
    requires WellFormed(s) && s.pstate == Csi && 0 <= s.params[s.count] < PowerOfTen(k)
    requires forall i | 0 <= i < |digits| :: IsDigit(digits[i])
    ensures var t := Feed(s, digits);
            && t.pstate == Csi && t.count == s.count && 0 <= t.params[s.count] < PowerOfTen(k + |digits|)
            && (k + |digits| <= 9 ==> t.params[s.count] + COLS <= INT_MAX)
    decreases |digits|
  {
    if digits == [] {
      PowersOfTenGrow(k, 9);
    } else {
      assert IsDigit(digits[0]);
      DigitsFit(FeedByte(s, digits[0]), digits[1..], k + 1);
    }
  }

  lemma {:induction false} PowersOfTenGrow(m: nat, n: nat)
    requires n <= 9
    ensures PowerOfTen(9) == 1_000_000_000
    ensures m <= n ==> PowerOfTen(m) <= PowerOfTen(n)
    decreases n
  {
    assert PowerOfTen(3) == 1000 && PowerOfTen(6) == 1_000_000;
    if m < n {
      PowersOfTenGrow(m, n - 1);
    }
  }

  // ----- without escapes: an endless sheet seen through a 25-row window

  /** What an unbounded printer would have on paper; the cursor is on the last row. */
  datatype Sheet = Sheet(rows: seq<seq<Cell>>, x: int)

  ghost predicate SheetOk(h: Sheet) {
    |h.rows| > 0 && (forall r | 0 <= r < |h.rows| :: |h.rows[r]| == COLS) && 0 <= h.x <= COLS
  }

  function Advance(h: Sheet): (g: Sheet)
    requires SheetOk(h)
    ensures SheetOk(g)
  {
    h.(rows := h.rows + [BlankRow(false)])
  }

  /** Typing one byte on the sheet: nothing ever scrolls away. */
  function Type(h: Sheet, c: Byte): (g: Sheet)
    requires SheetOk(h)
    ensures SheetOk(g)
  {
    if c == 0x0d then h.(x := 0)
    else if c == 0x0a then Advance(h)
    else if c == 0x08 then (if h.x > 0 then h.(x := h.x - 1) else h)
    else if c == 0x09 then h.(x := AtMost((h.x / 8 + 1) * 8, COLS - 1))
    else if Printable(c) then
      var g := if h.x == COLS then Advance(h.(x := 0)) else h;
      var last := |g.rows| - 1;
      Sheet(g.rows[last := g.rows[last][g.x := Cell(c, false)]], g.x + 1)
    else h
  }

  function TypeAll(h: Sheet, bytes: seq<Byte>): (g: Sheet)
    requires SheetOk(h)
    ensures SheetOk(g)
    decreases |bytes|
  {
    if bytes == [] then h else TypeAll(Type(h, bytes[0]), bytes[1..])
  }

  function FreshSheet(): Sheet { Sheet([BlankRow(false)], 0) }

  /** The last 25 rows, padded below with blank ones while the sheet is shorter. */
  function Window(rows: seq<seq<Cell>>): (w: seq<seq<Cell>>)
    ensures |w| == ROWS
  {
    if |rows| > ROWS then rows[|rows| - ROWS..]
    else rows + BlankRows(ROWS - |rows|)
  }

  /** The screen shows the window of the sheet, with the same cursor. */
  ghost predicate Shows(s: Screen, h: Sheet) {
    && s.rows == Window(h.rows) && s.x == h.x
    && s.y == AtMost(|h.rows|, ROWS) - 1
    && !s.reverse && s.pstate == Normal
  }

  /** One more row at the bottom: the window moves down once it is full. */
  lemma WindowGrows(rows: seq<seq<Cell>>)
    ensures var w, v := Window(rows), Window(rows + [BlankRow(false)]);
            v == if |rows| >= ROWS then w[1..] + [BlankRow(false)] else w
  {
    var w, v := Window(rows), Window(rows + [BlankRow(false)]);
    var expected := if |rows| >= ROWS then w[1..] + [BlankRow(false)] else w;
    forall i | 0 <= i < ROWS ensures v[i] == expected[i] {
    }
  }

  lemma ShowsAfterNewline(s: Screen, h: Sheet)
    requires WellFormed(s) && SheetOk(h) && Shows(s, h)
    ensures Shows(Newline(s), Advance(h))
  {
    WindowGrows(h.rows);
  }

  lemma ShowsAfterPut(s: Screen, h: Sheet, c: Byte)
    requires WellFormed(s) && SheetOk(h) && Shows(s, h) && s.x < COLS && Printable(c)
    ensures Shows(PutChar(s, c), Type(h, c))
  {
    var last := |h.rows| - 1;
    var row := h.rows[last][h.x := Cell(c, false)];
    LastRowShown(h.rows);
    WindowOfLast(h.rows, row);
    assert PutChar(s, c).rows == s.rows[s.y := row] && Type(h, c).rows == h.rows[last := row];
  }

  lemma LastRowShown(rows: seq<seq<Cell>>)
    requires rows != []
    ensures Window(rows)[AtMost(|rows|, ROWS) - 1] == rows[|rows| - 1]
  {
  }

  /** Changing the last row of the sheet changes the row of the cursor in the window. */
  lemma WindowOfLast(rows: seq<seq<Cell>>, row: seq<Cell>)
    requires rows != []
    ensures Window(rows[|rows| - 1 := row]) == Window(rows)[AtMost(|rows|, ROWS) - 1 := row]
  {
  }

  /** A pending wrap is a carriage return, a line feed, and then the character. */
  lemma PendingWrap(s: Screen, h: Sheet, c: Byte)
    requires WellFormed(s) && SheetOk(h) && s.x == COLS && h.x == COLS && Printable(c)
    ensures PutChar(s, c) == PutChar(Newline(s.(x := 0)), c)
    ensures Type(h, c) == Type(Advance(h.(x := 0)), c)
  {
  }

  lemma ShowsAfterByte(s: Screen, h: Sheet, c: Byte)
    requires WellFormed(s) && SheetOk(h) && Shows(s, h) && c != ESC
    ensures Shows(FeedByte(s, c), Type(h, c))
  {
    if c == 0x0a {
      ShowsAfterNewline(s, h);
    } else if Printable(c) {
      if s.x == COLS {
        ShowsAfterNewline(s.(x := 0), h.(x := 0));
        PendingWrap(s, h, c);
        ShowsAfterPut(Newline(s.(x := 0)), Advance(h.(x := 0)), c);
      } else {
        ShowsAfterPut(s, h, c);
      }
    }
  }

  /**
   * For every byte stream without ESC, the grid equals the last 25 rows of the
   * endless sheet, including wrap at column 80 and scrolling.
   */
  lemma {:induction false} ScreenShowsSheet(s: Screen, h: Sheet, bytes: seq<Byte>)
    requires WellFormed(s) && SheetOk(h) && Shows(s, h) && ESC !in bytes
    ensures Shows(Feed(s, bytes), TypeAll(h, bytes))
    decreases |bytes|
  {
    if bytes != [] {
      ShowsAfterByte(s, h, bytes[0]);
      ScreenShowsSheet(FeedByte(s, bytes[0]), Type(h, bytes[0]), bytes[1..]);
    }
  }

  lemma FreshScreenShowsSheet(bytes: seq<Byte>)
    requires ESC !in bytes
    ensures Feed(Init(), bytes).rows == Window(TypeAll(FreshSheet(), bytes).rows)
  {
    assert Init().rows == Window(FreshSheet().rows);
    ScreenShowsSheet(Init(), FreshSheet(), bytes);
  }

  // ----- the pending wrap outlives the next byte

  /**
   * The cursor is at column 80 after a byte exactly when the byte filled the
   * row, or it was there before and the byte does not move it.
   */
  lemma CursorAt80ExactlyWhen(s: Screen, c: Byte)
    requires WellFormed(s)
    ensures FeedByte(s, c).x == COLS <==>
            || (s.pstate == Normal && Printable(c) && s.x == COLS - 1)
            || (s.x == COLS && !(s.pstate == Normal && (Printable(c) || c in {0x0d, 0x08, 0x09}))
                && !(s.pstate == Csi && c in {'C' as int, 'D' as int, 'H' as int, 'f' as int}))
  {
  }

  lemma {:induction false} FilledRowEndsAt80(s: Screen, bytes: seq<Byte>)
    requires WellFormed(s) && s.pstate == Normal && s.x + |bytes| == COLS && forall c | c in bytes :: Printable(c)
    ensures Feed(s, bytes).x == COLS && Feed(s, bytes).pstate == Normal
    decreases |bytes|
  {
    if bytes != [] {
      assert Printable(bytes[0]) && s.x < COLS;
      FilledRowEndsAt80(FeedByte(s, bytes[0]), bytes[1..]);
    }
  }

  /** After 80 printable bytes on a fresh screen it is, and a line feed leaves it there. */
  lemma CursorIsStillAt80(bytes: seq<Byte>)
    requires |bytes| == COLS && forall c | c in bytes :: Printable(c)
    ensures Feed(Init(), bytes).x == COLS && FeedByte(Feed(Init(), bytes), 0x0a).x == COLS
  {
    FilledRowEndsAt80(Init(), bytes);
  }

  // ----- dirty rows suffice for repainting

  /** Rows that change are dirty, and dirty rows stay dirty. */
  ghost predicate Tracked(s: Screen, t: Screen) {
    && |s.rows| == |t.rows| == |s.dirty| == |t.dirty| == ROWS
    && forall r | 0 <= r < ROWS :: (s.dirty[r] || t.rows[r] != s.rows[r]) ==> t.dirty[r]
  }

  lemma PutCharTracked(s: Screen, c: Byte)
    requires WellFormed(s)
    ensures Tracked(s, PutChar(s, c))
  {
  }

  /** Whatever a byte changes on a row is reported by the row's dirty flag. */
  lemma ChangedRowsAreDirty(s: Screen, c: Byte)
    requires WellFormed(s)
    ensures Tracked(s, FeedByte(s, c))
  {
    match s.pstate {
      case Normal =>
        if Printable(c) { PutCharTracked(s, c); }
      case Escape =>
      case Csi => DispatchTracked(s, c);
    }
  }

  lemma DispatchTracked(s: Screen, final: Byte)
    requires WellFormed(s)
    ensures Tracked(s, Dispatch(s, final))
  {
  }

  ghost predicate PrintableRow(row: seq<Cell>) {
    forall i | 0 <= i < |row| :: Printable(row[i].ch)
  }

  ghost predicate PrintableRows(rows: seq<seq<Cell>>) {
    forall r | 0 <= r < |rows| :: PrintableRow(rows[r])
  }

  lemma NewlineStaysPrintable(s: Screen)
    requires WellFormed(s) && PrintableRows(s.rows)
    ensures PrintableRows(Newline(s).rows)
  {
  }

  lemma PutCharStaysPrintable(s: Screen, c: Byte)
    requires WellFormed(s) && PrintableRows(s.rows) && Printable(c)
    ensures PrintableRows(PutChar(s, c).rows)
  {
  }

  lemma CellsStayPrintable(s: Screen, c: Byte)
    requires WellFormed(s) && PrintableRows(s.rows)
    ensures PrintableRows(FeedByte(s, c).rows)
  {
    match s.pstate {
      case Normal =>
        NewlineStaysPrintable(s);
        if Printable(c) { PutCharStaysPrintable(s, c); }
      case Escape =>
      case Csi => DispatchStaysPrintable(s, c);
    }
  }

  lemma DispatchStaysPrintable(s: Screen, final: Byte)
    requires WellFormed(s) && PrintableRows(s.rows)
    ensures PrintableRows(Dispatch(s, final).rows)
  {
  }

  datatype Event = Received(c: Byte) | Render

  /** The screen and what a renderer has painted so far. */
  datatype Display = Display(screen: Screen, painted: seq<seq<Cell>>)

  /** Repaints the dirty rows, then clears the flags. */
  function Repaint(d: Display): Display
    requires WellFormed(d.screen) && |d.painted| == ROWS
  {
    Display(d.screen.(dirty := seq(ROWS, r requires 0 <= r => false)),
            seq(ROWS, r requires 0 <= r < ROWS => if d.screen.dirty[r] then d.screen.rows[r] else d.painted[r]))
  }

  function React(d: Display, e: Event): (t: Display)
    requires WellFormed(d.screen) && |d.painted| == ROWS
    ensures WellFormed(t.screen) && |t.painted| == ROWS
  {
    match e
    case Received(c) => d.(screen := FeedByte(d.screen, c))
    case Render => Repaint(d)
  }

  function ReactAll(d: Display, events: seq<Event>): (t: Display)
    requires WellFormed(d.screen) && |d.painted| == ROWS
    ensures WellFormed(t.screen) && |t.painted| == ROWS
    decreases |events|
  {
    if events == [] then d else ReactAll(React(d, events[0]), events[1..])
  }

  /** Every clean row is painted as it is. */
  ghost predicate InSync(d: Display) {
    && WellFormed(d.screen) && |d.painted| == ROWS && PrintableRows(d.screen.rows)
    && forall r | 0 <= r < ROWS && !d.screen.dirty[r] :: d.painted[r] == d.screen.rows[r]
  }

  lemma {:induction false} StaysInSync(d: Display, events: seq<Event>)
    requires InSync(d)
    ensures InSync(ReactAll(d, events))
    decreases |events|
  {
    if events != [] {
      var t := React(d, events[0]);
      if events[0].Received? {
        var c := events[0].c;
        CellsStayPrintable(d.screen, c);
        ChangedRowsAreDirty(d.screen, c);
      }
      StaysInSync(t, events[1..]);
    }
  }

  /**
   * A renderer that repaints only dirty rows, at any moments, holds exactly the
   * current grid right after each repaint, whatever it showed at the start.
   */
  lemma RendererHoldsTheGrid(painted: seq<seq<Cell>>, events: seq<Event>)
    requires |painted| == ROWS
    ensures var d := ReactAll(Display(Init(), painted), events);
            && Repaint(d).painted == d.screen.rows
            && PrintableRows(d.screen.rows)
  {
    assert PrintableRow(BlankRow(false));
    StaysInSync(Display(Init(), painted), events);
  }

  // ----- the code

  class VtScreen {
    const cells: array2<Cell>
    var cursorX: int
    var cursorY: int
    var reverse: bool
    var pstate: ParserState
    const csiParams: array<int>
    const csiHas: array<bool>
    var csiCount: int
    const dirty: array<bool>
    ghost var view: Screen

    /** The grid holds `rows`. */
    ghost predicate Holds(rows: seq<seq<Cell>>)
      reads this, cells
    {
      && cells.Length0 == ROWS && cells.Length1 == COLS
      && |rows| == ROWS && (forall r | 0 <= r < ROWS :: |rows[r]| == COLS)
      && forall r, c | 0 <= r < ROWS && 0 <= c < COLS :: cells[r, c] == rows[r][c]
    }

    ghost predicate Shaped()
      reads this
    {
      && cells.Length0 == ROWS && cells.Length1 == COLS
      && csiParams.Length == CSI_MAX_PARAMS && csiHas.Length == CSI_MAX_PARAMS
      && dirty.Length == ROWS && dirty != csiHas
    }

    ghost predicate Valid()
      reads this, cells, csiParams, csiHas, dirty
    {
      && Shaped() && WellFormed(view) && Holds(view.rows)
      && cursorX == view.x && cursorY == view.y && reverse == view.reverse
      && pstate == view.pstate && csiCount == view.count
      && csiParams[..] == view.params && csiHas[..] == view.has && dirty[..] == view.dirty
    }

    constructor ()
      ensures Shaped() && fresh(cells) && fresh(csiParams) && fresh(csiHas) && fresh(dirty)
    {
      cells := new Cell[ROWS, COLS]((r, c) => Blank(false));
      csiParams := new int[CSI_MAX_PARAMS];
      csiHas := new bool[CSI_MAX_PARAMS];
      dirty := new bool[ROWS];
      cursorX, cursorY, reverse, pstate, csiCount := 0, 0, false, Normal, 0;
    }

    /** Blanks columns [from, to) of a row with the current attribute. */
    method EraseCells(row: int, from: int, to: int)
      requires Shaped() && 0 <= row < ROWS && 0 <= from && to <= COLS
      modifies cells
      ensures forall r, c | 0 <= r < ROWS && 0 <= c < COLS ::
                cells[r, c] == if r == row && from <= c < to then Blank(reverse) else old(cells[r, c])
    {
      var c := from;
      while c < to
        invariant from <= c && (c == from || c <= to)
        invariant forall q, d | 0 <= q < ROWS && 0 <= d < COLS ::
                    cells[q, d] == if q == row && from <= d < c then Blank(reverse) else old(cells[q, d])
      {
        cells[row, c] := Blank(reverse);
        c := c + 1;
      }
    }

    method CopyRow(dst: int, src: int)
      requires Shaped() && 0 <= dst < ROWS && 0 <= src < ROWS && dst != src
      modifies cells
      ensures forall r, c | 0 <= r < ROWS && 0 <= c < COLS ::
                cells[r, c] == if r == dst then old(cells[src, c]) else old(cells[r, c])
    {
      for c := 0 to COLS
        invariant forall q, d | 0 <= q < ROWS && 0 <= d < COLS ::
                    cells[q, d] == if q == dst && d < c then old(cells[src, d]) else old(cells[q, d])
      {
        cells[dst, c] := cells[src, c];
      }
    }

    /** vt_mark_all_dirty and vt_clear_dirty */
    method MarkAll(flag: bool)
      requires Valid()
      modifies this`view, dirty
      ensures Valid() && view == old(view).(dirty := view.dirty) && forall r | 0 <= r < ROWS :: view.dirty[r] == flag
    {
      for r := 0 to ROWS
        invariant forall q | 0 <= q < r :: dirty[q] == flag
        modifies dirty
      {
        dirty[r] := flag;
      }
      view := view.(dirty := dirty[..]);
    }

    method DoScrollUp()
      requires Valid()
      modifies this`view, cells, dirty
      ensures Valid() && view == ScrollUp(old(view))
    {
      ghost var rows := view.rows;
      for r := 0 to ROWS - 1
        invariant forall q, c | 0 <= q < ROWS && 0 <= c < COLS ::
                    cells[q, c] == if q < r then rows[q + 1][c] else rows[q][c]
        modifies cells
      {
        CopyRow(r, r + 1);
      }
      EraseCells(ROWS - 1, 0, COLS);
      view := view.(rows := rows[1..] + [BlankRow(reverse)]);
      MarkAll(true);
      assert view.dirty == AllDirty();
    }

    method DoNewline()
      requires Valid()
      modifies this`view, this`cursorY, cells, dirty
      ensures Valid() && view == Newline(old(view))
    {
      if cursorY + 1 >= ROWS {
        cursorY := ROWS - 1;
        view := view.(y := ROWS - 1);
        DoScrollUp();
      } else {
        cursorY := cursorY + 1;
        view := view.(y := cursorY);
      }
    }

    method DoPutChar(c: Byte)
      requires Valid()
      modifies this`view, this`cursorX, this`cursorY, cells, dirty
      ensures Valid() && view == PutChar(old(view), c)
    {
      if cursorX >= COLS {
        cursorX := 0;
        view := view.(x := 0);
        DoNewline();
      }
      StoreCell(Cell(c, reverse));
    }

    /** Writes the cell under the cursor and moves on. */
    method StoreCell(cell: Cell)
      requires Valid() && cursorX < COLS
      modifies this`view, this`cursorX, cells, dirty
      ensures Valid() && view == old(SetRow(view, view.y, view.rows[view.y][view.x := cell]).(x := view.x + 1))
    {
      ghost var t := view;
      cells[cursorY, cursorX] := cell;
      dirty[cursorY] := true;
      cursorX := cursorX + 1;
      view := SetRow(t, t.y, t.rows[t.y][t.x := cell]).(x := t.x + 1);
    }

    method GetParam(i: int, default: int) returns (n: int)
      requires Valid()
      ensures n == Param(view, i, default)
    {
      if i < 0 || i >= CSI_MAX_PARAMS || !csiHas[i] {
        return default;
      }
      n := csiParams[i];
    }

    method DoEraseDisplay(mode: int)
      requires Valid()
      modifies this`view, cells, dirty
      ensures Valid() && view == EraseDisplay(old(view), mode)
    {
      ghost var s := view;
      for r := 0 to ROWS
        invariant forall q, c | 0 <= q < ROWS && 0 <= c < COLS ::
                    cells[q, c] == if q < r then EraseDisplay(s, mode).rows[q][c] else s.rows[q][c]
        modifies cells
      {
        // rows above, at and below the cursor, as in the three modes of ED
        if r == cursorY {
          if mode == 0 {
            EraseCells(r, cursorX, COLS);
          } else if mode == 1 {
            EraseCells(r, 0, if cursorX + 1 > COLS then COLS else cursorX + 1);
          } else {
            EraseCells(r, 0, COLS);
          }
        } else if (mode == 0 && r > cursorY) || (mode == 1 && r < cursorY) || (mode != 0 && mode != 1) {
          EraseCells(r, 0, COLS);
        }
      }
      view := view.(rows := EraseDisplay(s, mode).rows);
      MarkAll(true);
      assert view.dirty == AllDirty();
    }

    method DoEraseLine(mode: int)
      requires Valid()
      modifies this`view, cells, dirty
      ensures Valid() && view == EraseLine(old(view), mode)
    {
      if mode == 0 {
        EraseCells(cursorY, cursorX, COLS);
      } else if mode == 1 {
        EraseCells(cursorY, 0, if cursorX + 1 > COLS then COLS else cursorX + 1);
      } else {
        EraseCells(cursorY, 0, COLS);
      }
      dirty[cursorY] := true;
      view := EraseLine(view, mode);
    }

    method DoSgr()
      requires Valid()
      modifies this`view, this`reverse
      ensures Valid()
      ensures view == old(view).(reverse := Sgr(old(view), old(reverse), 0, AtMost(csiCount + 1, CSI_MAX_PARAMS)))
    {
      ghost var s := view;
      var n := if csiCount + 1 > CSI_MAX_PARAMS then CSI_MAX_PARAMS else csiCount + 1;
      for i := 0 to n
        invariant Valid() && view == s.(reverse := reverse)
        invariant Sgr(s, s.reverse, 0, n) == Sgr(s, reverse, i, n)
      {
        var p := GetParam(i, 0);
        if p == 7 {
          reverse := true;
        } else if p == 0 || p == 27 {
          reverse := false;
        }
        view := view.(reverse := reverse);
      }
    }

    /** Where CUU, CUD, CUF, CUB and CUP take the cursor. */
    method CursorTarget(final: Byte) returns (x: int, y: int)
      requires Valid()
      ensures Move(view, final) == view.(x := x, y := y)
    {
      x, y := cursorX, cursorY;
      var first := GetParam(0, 1);
      var n := if first < 1 then 1 else first;
      if final == 'A' as int {
        y := if y - n < 0 then 0 else y - n;
      } else if final == 'B' as int {
        y := if y + n >= ROWS then ROWS - 1 else y + n;
      } else if final == 'C' as int {
        x := if x + n >= COLS then COLS - 1 else x + n;
      } else if final == 'D' as int {
        x := if x - n < 0 then 0 else x - n;
      } else if final == 'H' as int || final == 'f' as int {
        var second := GetParam(1, 1);
        var col := if second < 1 then 1 else second;
        y := if n - 1 >= ROWS then ROWS - 1 else n - 1;
        x := if col - 1 >= COLS then COLS - 1 else col - 1;
      }
    }

    method MoveCursor(final: Byte)
      requires Valid()
      modifies this`cursorX, this`cursorY, this`view
      ensures Valid() && view == Move(old(view), final)
    {
      cursorX, cursorY := CursorTarget(final);
      view := view.(x := cursorX, y := cursorY);
    }

    method DoDispatch(final: Byte)
      requires Valid()
      modifies this, cells, dirty
      ensures Valid() && view == Dispatch(old(view), final)
    {
      if final == 'J' as int {
        var mode := GetParam(0, 0);
        DoEraseDisplay(mode);
      } else if final == 'K' as int {
        var mode := GetParam(0, 0);
        DoEraseLine(mode);
      } else if final == 'm' as int {
        DoSgr();
      } else {
        MoveCursor(final);
      }
    }

    method FeedOne(c: Byte)
      requires Valid()
      modifies this, cells, csiParams, csiHas, dirty
      ensures Valid() && view == FeedByte(old(view), c)
    {
      match pstate {
        case Normal => FeedPlain(c);
        case Escape =>
          if c == '[' as int {
            BeginCsi();
          } else {
            pstate := Normal;
            view := view.(pstate := Normal);
          }
        case Csi => FeedSequence(c);
      }
    }

    method FeedPlain(c: Byte)
      requires Valid()
      modifies this, cells, dirty
      ensures Valid() && view == FeedNormal(old(view), c)
    {
      if c == ESC {
        pstate := Escape;
        view := view.(pstate := Escape);
        return;
      }
      if c == 0x0d {
        cursorX := 0;
      } else if c == 0x0a {
        DoNewline();
      } else if c == 0x08 {
        if cursorX > 0 { cursorX := cursorX - 1; }
      } else if c == 0x09 {
        var nextTab := (cursorX / 8 + 1) * 8;
        cursorX := if nextTab >= COLS then COLS - 1 else nextTab;
      } else if 0x20 <= c < 0x7f {
        DoPutChar(c);
      }
      view := view.(x := cursorX);
    }

    method BeginCsi()
      requires Valid()
      modifies this`pstate, this`csiCount, this`view, csiParams, csiHas
      ensures Valid()
      ensures view == old(view).(pstate := Csi, count := 0, params := Init().params, has := Init().has)
    {
      pstate := Csi;
      csiCount := 0;
      for i := 0 to CSI_MAX_PARAMS
        invariant forall j | 0 <= j < i :: csiParams[j] == 0 && !csiHas[j]
        modifies csiParams, csiHas
      {
        csiParams[i] := 0;
        csiHas[i] := false;
      }
      assert csiParams[..] == Init().params && csiHas[..] == Init().has;
      view := view.(pstate := Csi, count := 0, params := csiParams[..], has := csiHas[..]);
    }

    method FeedSequence(c: Byte)
      requires Valid()
      modifies this, cells, csiParams, csiHas, dirty
      ensures Valid() && view == FeedCsi(old(view), c)
    {
      if '0' as int <= c <= '9' as int {
        if csiCount < CSI_MAX_PARAMS {
          csiParams[csiCount] := csiParams[csiCount] * 10 + (c - '0' as int);
          csiHas[csiCount] := true;
          view := view.(params := csiParams[..], has := csiHas[..]);
        }
      } else if c == ';' as int {
        if csiCount < CSI_MAX_PARAMS - 1 {
          csiCount := csiCount + 1;
          view := view.(count := csiCount);
        }
      } else {
        DoDispatch(c);
        pstate := Normal;
        view := view.(pstate := Normal);
      }
    }

    method FeedMany(data: seq<Byte>)
      requires Valid()
      modifies this, cells, csiParams, csiHas, dirty
      ensures Valid() && view == Feed(old(view), data)
    {
      for i := 0 to |data|
        invariant Valid() && Feed(view, data[i..]) == Feed(old(view), data)
      {
        assert data[i..][0] == data[i] && data[i..][1..] == data[i + 1..];
        FeedOne(data[i]);
      }
    }

    method Initialize()
      requires Shaped()
      modifies this, cells, csiParams, csiHas, dirty
      ensures Valid() && view == Init()
    {
      reverse := false;
      for r := 0 to ROWS
        invariant forall q, c | 0 <= q < r && 0 <= c < COLS :: cells[q, c] == Blank(false)
        invariant forall q | 0 <= q < r :: dirty[q]
        modifies cells, dirty
      {
        EraseCells(r, 0, COLS);
        dirty[r] := true;
      }
      cursorX, cursorY, pstate, csiCount := 0, 0, Normal, 0;
      for i := 0 to CSI_MAX_PARAMS
        invariant forall j | 0 <= j < i :: csiParams[j] == 0 && !csiHas[j]
        modifies csiParams, csiHas
      {
        csiParams[i] := 0;
        csiHas[i] := false;
      }
      view := Init();
      assert csiParams[..] == Init().params && csiHas[..] == Init().has && dirty[..] == AllDirty();
    }

    /** vt_row_dirty */
    method RowDirty(row: int) returns (d: bool)
      requires Valid()
      ensures d == (0 <= row < ROWS && view.dirty[row])
    {
      d := 0 <= row && row < ROWS && dirty[row];
    }
  }
}
