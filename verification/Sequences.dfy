/**
 * Control sequences of the terminal in sw/common/zvt100.c, from the bytes of a
 * sequence to what it does to the screen.
 */
module Sequences {
  import opened Words
  import opened Vt100

  // ----- parameters, from their digits

  ghost predicate AllDigits(digits: seq<Byte>) { forall i | 0 <= i < |digits| :: IsDigit(digits[i]) }

  /** The number a decimal numeral stands for; the empty one is zero. */
  function Number(digits: seq<Byte>): int {
    if digits == [] then 0 else Number(digits[..|digits| - 1]) * 10 + (digits[|digits| - 1] - '0' as int)
  }

  lemma {:induction false} NumberNonnegative(digits: seq<Byte>)
    requires AllDigits(digits)
    ensures Number(digits) >= 0
    decreases |digits|
  {
    if digits != [] {
      assert IsDigit(digits[|digits| - 1]);
      assert forall i | 0 <= i < |digits| - 1 :: digits[..|digits| - 1][i] == digits[i];
      NumberNonnegative(digits[..|digits| - 1]);
    }
  }

  /** Digits fed inside a control sequence become the value of the current parameter. */
  lemma {:induction false} DigitsBecomeParameter(s: Screen, digits: seq<Byte>)
    requires WellFormed(s) && s.pstate == Csi && s.params[s.count] == 0 && !s.has[s.count] && AllDigits(digits)
    ensures Number(digits) >= 0
    ensures Feed(s, digits) == WithParameter(s, Number(digits), digits != [])
    decreases |digits|
  {
    NumberNonnegative(digits);
    if digits == [] {
      assert s.params == s.params[s.count := 0] && s.has == s.has[s.count := false];
    } else {
      var front, last := digits[..|digits| - 1], digits[|digits| - 1];
      assert forall i | 0 <= i < |front| :: front[i] == digits[i];
      assert IsDigit(last) && front + [last] == digits;
      DigitsBecomeParameter(s, front);
      FeedAppend(s, front, [last]);
      FeedOneByte(Feed(s, front), last);
      OneMoreDigit(s, Number(front), front != [], last);
    }
  }

  function WithParameter(s: Screen, value: int, present: bool): (t: Screen)
    requires WellFormed(s) && value >= 0
    ensures WellFormed(t)
  {
    s.(params := s.params[s.count := value], has := s.has[s.count := present])
  }

  lemma OneMoreDigit(s: Screen, value: int, present: bool, last: Byte)
    requires WellFormed(s) && s.pstate == Csi && value >= 0 && IsDigit(last)
    ensures FeedByte(WithParameter(s, value, present), last) ==
            WithParameter(s, value * 10 + (last - '0' as int), true)
  {
    var t := WithParameter(s, value, present);
    var v := value * 10 + (last - '0' as int);
    assert t.params[s.count := v] == s.params[s.count := v] && t.has[s.count := true] == s.has[s.count := true];
  }

  // ----- a whole sequence: ESC [ p1 ; p2 ; ... final

  const BRACKET: Byte := 0x5b
  const SEMICOLON: Byte := 0x3b

  function Joined(ps: seq<seq<Byte>>): seq<Byte> {
    if |ps| == 0 then [] else if |ps| == 1 then ps[0] else Joined(ps[..|ps| - 1]) + [SEMICOLON] + ps[|ps| - 1]
  }

  /** One to eight parameters, each a numeral or absent. */
  ghost predicate Parameters(ps: seq<seq<Byte>>) {
    1 <= |ps| <= CSI_MAX_PARAMS && forall i | 0 <= i < |ps| :: AllDigits(ps[i])
  }

  function Values(ps: seq<seq<Byte>>): (v: seq<int>)
    ensures |v| == CSI_MAX_PARAMS
  {
    seq(CSI_MAX_PARAMS, i requires 0 <= i < CSI_MAX_PARAMS => if i < |ps| then Number(ps[i]) else 0)
  }

  function Present(ps: seq<seq<Byte>>): (v: seq<bool>)
    ensures |v| == CSI_MAX_PARAMS
  {
    seq(CSI_MAX_PARAMS, i requires 0 <= i < CSI_MAX_PARAMS => i < |ps| && ps[i] != [])
  }

  /** The screen before the final byte. */
  function Ready(s: Screen, ps: seq<seq<Byte>>): Screen {
    s.(pstate := Csi, count := |ps| - 1, params := Values(ps), has := Present(ps))
  }

  lemma ReadyIsWellFormed(s: Screen, ps: seq<seq<Byte>>)
    requires WellFormed(s) && Parameters(ps)
    ensures WellFormed(Ready(s, ps))
  {
    forall i | 0 <= i < CSI_MAX_PARAMS ensures Values(ps)[i] >= 0 {
      if i < |ps| { NumberNonnegative(ps[i]); }
    }
  }

  lemma SequenceBegins(s: Screen)
    requires WellFormed(s) && s.pstate == Normal
    ensures Feed(s, [ESC, BRACKET]) == Ready(s, [[]])
  {
    assert [ESC, BRACKET] == [ESC] + [BRACKET];
    FeedAppend(s, [ESC], [BRACKET]);
    FeedOneByte(s, ESC);
    FeedOneByte(FeedByte(s, ESC), BRACKET);
    assert Values([[]]) == Init().params && Present([[]]) == Init().has;
  }

  lemma ParameterRead(s: Screen, ps: seq<seq<Byte>>, digits: seq<Byte>)
    requires WellFormed(s) && Parameters(ps) && ps[|ps| - 1] == [] && AllDigits(digits)
    ensures WellFormed(Ready(s, ps)) && Feed(Ready(s, ps), digits) == Ready(s, ps[|ps| - 1 := digits])
  {
    ReadyIsWellFormed(s, ps);
    DigitsBecomeParameter(Ready(s, ps), digits);
    var qs, n := ps[|ps| - 1 := digits], |ps| - 1;
    assert Values(ps)[n := Number(digits)] == Values(qs) && Present(ps)[n := digits != []] == Present(qs);
  }

  lemma SeparatorRead(s: Screen, ps: seq<seq<Byte>>)
    requires WellFormed(s) && Parameters(ps) && |ps| < CSI_MAX_PARAMS
    ensures WellFormed(Ready(s, ps)) && Feed(Ready(s, ps), [SEMICOLON]) == Ready(s, ps + [[]])
  {
    ReadyIsWellFormed(s, ps);
    FeedOneByte(Ready(s, ps), SEMICOLON);
    assert Values(ps) == Values(ps + [[]]) && Present(ps) == Present(ps + [[]]);
  }

  lemma ParameterAdded(s: Screen, ps: seq<seq<Byte>>, digits: seq<Byte>)
    requires WellFormed(s) && Parameters(ps) && |ps| < CSI_MAX_PARAMS && AllDigits(digits)
    ensures WellFormed(Ready(s, ps)) && Feed(Ready(s, ps), [SEMICOLON] + digits) == Ready(s, ps + [digits])
  {
    SeparatorRead(s, ps);
    FeedAppend(Ready(s, ps), [SEMICOLON], digits);
    assert Parameters(ps + [[]]);
    ParameterRead(s, ps + [[]], digits);
    assert (ps + [[]])[|ps| := digits] == ps + [digits];
  }

  lemma JoinedLast(ps: seq<seq<Byte>>)
    requires |ps| > 1
    ensures Joined(ps) == Joined(ps[..|ps| - 1]) + ([SEMICOLON] + ps[|ps| - 1])
  {
  }

  lemma FeedThrough(s: Screen, a: seq<Byte>, t: Screen, b: seq<Byte>, u: Screen)
    requires WellFormed(s) && Feed(s, a) == t && Feed(t, b) == u
    ensures Feed(s, a + b) == u
  {
    FeedAppend(s, a, b);
  }

  lemma {:induction false} ParametersRead(s: Screen, ps: seq<seq<Byte>>)
    requires WellFormed(s) && Parameters(ps)
    ensures WellFormed(Ready(s, [[]])) && Feed(Ready(s, [[]]), Joined(ps)) == Ready(s, ps)
    decreases |ps|
  {
    var n := |ps| - 1;
    ReadyIsWellFormed(s, [[]]);
    if n == 0 {
      ParameterRead(s, [[]], ps[0]);
      assert [[]][0 := ps[0]] == ps;
    } else {
      var front := ps[..n];
      assert Parameters(front) && front + [ps[n]] == ps;
      ParametersRead(s, front);
      ParameterAdded(s, front, ps[n]);
      JoinedLast(ps);
      FeedThrough(Ready(s, [[]]), Joined(front), Ready(s, front), [SEMICOLON] + ps[n], Ready(s, ps));
    }
  }

  function Control(ps: seq<seq<Byte>>, final: Byte): seq<Byte> { [ESC, BRACKET] + Joined(ps) + [final] }

  /** The final byte meets exactly the parameters that were written. */
  lemma SequenceIsDispatched(s: Screen, ps: seq<seq<Byte>>, final: Byte)
    requires WellFormed(s) && s.pstate == Normal && Parameters(ps) && !IsDigit(final) && final != SEMICOLON
    ensures WellFormed(Ready(s, ps))
    ensures Feed(s, Control(ps, final)) == Dispatch(Ready(s, ps), final).(pstate := Normal)
  {
    FeedAppend(s, [ESC, BRACKET] + Joined(ps), [final]);
    FeedAppend(s, [ESC, BRACKET], Joined(ps));
    SequenceBegins(s);
    ParametersRead(s, ps);
    ReadyIsWellFormed(s, ps);
    FeedOneByte(Ready(s, ps), final);
  }

  // ----- what the sequences mean

  /** The position is the cursor's or comes after it in reading order. */
  predicate FromCursor(s: Screen, r: int, c: int) { r > s.y || (r == s.y && c >= s.x) }

  predicate UpToCursor(s: Screen, r: int, c: int) { r < s.y || (r == s.y && c <= s.x) }

  /** The cells ED with this mode is to erase. */
  predicate Erases(s: Screen, mode: int, r: int, c: int) {
    if mode == 0 then FromCursor(s, r, c) else if mode == 1 then UpToCursor(s, r, c) else true
  }

  /** Cursor, attribute and parser state are as they were. */
  predicate SameCursor(s: Screen, t: Screen) {
    t.x == s.x && t.y == s.y && t.reverse == s.reverse && t.pstate == Normal
  }

  /** ESC [ mode J blanks exactly the cells the mode names, with the current attribute; no mode means 0. */
  lemma EraseInDisplay(s: Screen, mode: seq<Byte>, r: int, c: int)
    requires WellFormed(s) && s.pstate == Normal && AllDigits(mode) && 0 <= r < ROWS && 0 <= c < COLS
    ensures var t := Feed(s, Control([mode], 'J' as int));
            && SameCursor(s, t)
            && t.rows[r][c] == if Erases(s, Number(mode), r, c) then Cell(SPACE, s.reverse) else s.rows[r][c]
  {
    SequenceIsDispatched(s, [mode], 'J' as int);
  }

  /** ESC [ mode K does the same within the row of the cursor. */
  lemma EraseInLine(s: Screen, mode: seq<Byte>, r: int, c: int)
    requires WellFormed(s) && s.pstate == Normal && AllDigits(mode) && 0 <= r < ROWS && 0 <= c < COLS
    ensures var t := Feed(s, Control([mode], 'K' as int));
            && SameCursor(s, t)
            && t.rows[r][c] ==
               if r == s.y && Erases(s, Number(mode), r, c) then Cell(SPACE, s.reverse) else s.rows[r][c]
  {
    SequenceIsDispatched(s, [mode], 'K' as int);
  }

  /** The code of SGR parameter `i`, if it has an effect. */
  predicate Effective(ps: seq<seq<Byte>>, i: nat) { i < |ps| && Number(ps[i]) in {0, 7, 27} }

  lemma {:induction false} LastEffectiveDecides(s: Screen, ps: seq<seq<Byte>>, reverse: bool, i: nat)
    requires WellFormed(Ready(s, ps)) && Parameters(ps) && i <= |ps|
    ensures var r := Sgr(Ready(s, ps), reverse, i, |ps|);
            && ((forall j | i <= j < |ps| :: !Effective(ps, j)) ==> r == reverse)
            && forall j | i <= j < |ps| && Effective(ps, j) && (forall k | j < k < |ps| :: !Effective(ps, k)) ::
                 r == (Number(ps[j]) == 7)
    decreases |ps| - i
  {
    if i < |ps| {
      var p := Param(Ready(s, ps), i, 0);
      assert p == Number(ps[i]);
      LastEffectiveDecides(s, ps, if p == 7 then true else if p == 0 || p == 27 then false else reverse, i + 1);
      assert Effective(ps, i) <==> p in {0, 7, 27};
    }
  }

  /** ESC [ p1 ; ... m: the last parameter among 0, 7 and 27 decides, and nothing else changes. */
  lemma SelectRendition(s: Screen, ps: seq<seq<Byte>>)
    requires WellFormed(s) && s.pstate == Normal && Parameters(ps)
    ensures var t := Feed(s, Control(ps, 'm' as int));
            && t.rows == s.rows && t.x == s.x && t.y == s.y && t.pstate == Normal
            && ((forall j | 0 <= j < |ps| :: !Effective(ps, j)) ==> t.reverse == s.reverse)
            && forall j | 0 <= j < |ps| && Effective(ps, j) && (forall k | j < k < |ps| :: !Effective(ps, k)) ::
                 t.reverse == (Number(ps[j]) == 7)
  {
    SequenceIsDispatched(s, ps, 'm' as int);
    LastEffectiveDecides(s, ps, s.reverse, 0);
  }

  /** A count or coordinate: absent and zero both mean one. */
  function OneBased(ps: seq<seq<Byte>>, i: nat): int {
    if i < |ps| && Number(ps[i]) > 0 then Number(ps[i]) else 1
  }

  /** `x` moved into the range from 0 up to but not including `size`. */
  predicate IsNearest(x: int, wanted: int, size: int) {
    && 0 <= x < size && (0 <= wanted < size ==> x == wanted)
    && (wanted < 0 ==> x == 0) && (wanted >= size ==> x == size - 1)
  }

  /** ESC [ row ; col H puts the cursor at that cell, counted from one, or at the nearest one on the screen. */
  lemma CursorPosition(s: Screen, ps: seq<seq<Byte>>, final: Byte)
    requires WellFormed(s) && s.pstate == Normal && Parameters(ps) && final in {'H' as int, 'f' as int}
    ensures var t := Feed(s, Control(ps, final));
            && IsNearest(t.y, OneBased(ps, 0) - 1, ROWS) && IsNearest(t.x, OneBased(ps, 1) - 1, COLS)
            && t.rows == s.rows && t.reverse == s.reverse && t.pstate == Normal
  {
    SequenceIsDispatched(s, ps, final);
    assert Param(Ready(s, ps), 0, 1) == if ps[0] == [] then 1 else Number(ps[0]);
  }

  /** ESC [ n A, B, C and D move the cursor up, down, right and left, as far as the screen goes. */
  lemma CursorMoves(s: Screen, ps: seq<seq<Byte>>, final: Byte)
    requires WellFormed(s) && s.pstate == Normal && Parameters(ps)
    requires final in {'A' as int, 'B' as int, 'C' as int, 'D' as int}
    ensures var t := Feed(s, Control(ps, final));
            var n := OneBased(ps, 0);
            && t.rows == s.rows && t.reverse == s.reverse && t.pstate == Normal
            && (final == 'A' as int ==> t.x == s.x && IsNearest(t.y, s.y - n, ROWS))
            && (final == 'B' as int ==> t.x == s.x && IsNearest(t.y, s.y + n, ROWS))
            && (final == 'C' as int ==> t.y == s.y && IsNearest(t.x, s.x + n, COLS))
            && (final == 'D' as int ==> t.y == s.y && IsNearest(t.x, s.x - n, COLS))
  {
    SequenceIsDispatched(s, ps, final);
    assert Param(Ready(s, ps), 0, 1) == if ps[0] == [] then 1 else Number(ps[0]);
  }

  /** Any other final byte is absorbed without a trace, and so is ESC before any byte but a bracket. */
  lemma OthersAreAbsorbed(s: Screen, ps: seq<seq<Byte>>, final: Byte)
    requires WellFormed(s) && s.pstate == Normal && Parameters(ps) && !IsDigit(final) && final != SEMICOLON
    requires final !in {'A' as int, 'B' as int, 'C' as int, 'D' as int, 'H' as int, 'f' as int, 'J' as int, 'K' as int,
                        'm' as int}
    ensures var t := Feed(s, Control(ps, final));
            SameCursor(s, t) && t.rows == s.rows && t.dirty == s.dirty
    ensures final != BRACKET ==> FeedByte(FeedByte(s, ESC), final) == s
  {
    SequenceIsDispatched(s, ps, final);
  }

  /** On the last row a line feed scrolls: what comes in is blank with the current attribute. */
  lemma LineFeed(s: Screen, r: int, c: int)
    requires WellFormed(s) && s.pstate == Normal && 0 <= r < ROWS && 0 <= c < COLS
    ensures var t := FeedByte(s, 0x0a);
            && t.x == s.x && t.y == (if s.y == ROWS - 1 then s.y else s.y + 1) && t.reverse == s.reverse
            && t.rows[r][c] == if s.y < ROWS - 1 then s.rows[r][c]
                               else if r < ROWS - 1 then s.rows[r + 1][c] else Cell(SPACE, s.reverse)
  {
  }

  /** A tab goes to the next multiple of eight, or to the last column. */
  lemma TabStops(s: Screen)
    requires WellFormed(s) && s.pstate == Normal
    ensures var t := FeedByte(s, 0x09);
            && t == s.(x := t.x) && t.x < COLS
            && (s.x < COLS - 8 ==> t.x > s.x && t.x % 8 == 0 && t.x - s.x <= 8)
            && (s.x >= COLS - 8 ==> t.x == COLS - 1)
  {
  }
}
