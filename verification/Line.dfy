/**
 * The line discipline of sw/common/zline.c and the promise behind its echo:
 * the terminal that draws the echo bytes shows the line being edited.
 */
module Line {
  import opened Words
  import opened Vt100

  const LINE_MAX: int := 128
  const CR: Byte := 0x0d
  const LF: Byte := 0x0a
  const BS: Byte := 0x08
  const DEL: Byte := 0x7f

  /** z_line_t as a value: the text typed so far, without its NUL. */
  datatype Editing = Editing(text: seq<Byte>, hadCr: bool)

  /** What one byte does: the new state, whether it completed the line, and the echo. */
  datatype Outcome = Outcome(line: Editing, complete: bool, echo: seq<Byte>)

  function Fresh(): Editing { Editing([], false) }

  /** The echo bytes, if the caller's buffer has room for them. */
  function Fits(echo: seq<Byte>, cap: nat): seq<Byte> {
    if cap >= |echo| then echo else []
  }

  /** z_line_feed */
  function FeedLine(l: Editing, b: Byte, cap: nat): Outcome {
    if b == CR then Outcome(l.(hadCr := true), true, Fits([CR, LF], cap))
    else if b == LF then
      if l.hadCr then Outcome(l.(hadCr := false), false, [])
      else Outcome(l, true, Fits([CR, LF], cap))
    else if b == DEL || b == BS then
      if |l.text| > 0 then Outcome(Editing(l.text[..|l.text| - 1], false), false, Fits([BS, SPACE, BS], cap))
      else Outcome(l.(hadCr := false), false, [])
    else if !Printable(b) || |l.text| >= LINE_MAX then Outcome(l.(hadCr := false), false, [])
    else Outcome(Editing(l.text + [b], false), false, Fits([b], cap))
  }

  class LineBuffer {
    const buf: array<Byte>
    var len: int
    var hadCr: bool

    ghost predicate Valid()
      reads this
    {
      buf.Length == LINE_MAX + 1 && 0 <= len <= LINE_MAX
    }

    ghost function View(): Editing
      reads this, buf
      requires Valid()
    {
      Editing(buf[..len], hadCr)
    }

    constructor ()
      ensures fresh(buf) && Valid() && View() == Fresh()
    {
      buf := new Byte[LINE_MAX + 1](i => 0);
      len, hadCr := 0, false;
    }

    /** z_line_reset */
    method Reset()
      requires Valid()
      modifies this, buf
      ensures Valid() && View() == Fresh()
    {
      len := 0;
      buf[0] := 0;
      hadCr := false;
    }

    method Feed(b: Byte, cap: nat) returns (complete: bool, echo: seq<Byte>)
      requires Valid()
      modifies this, buf
      ensures Valid()
      ensures Outcome(View(), complete, echo) == FeedLine(old(View()), b, cap)
      ensures complete ==> buf[len] == 0
    {
      complete, echo := false, [];
      if b == CR || (b == LF && !hadCr) {
        buf[len] := 0;
        if b == CR { hadCr := true; }
        if cap >= 2 { echo := [CR, LF]; }
        complete := true;
      } else if b == LF {
        hadCr := false;
      } else {
        hadCr := false;
        if b == DEL || b == BS {
          if len > 0 {
            len := len - 1;
            if cap >= 3 { echo := [BS, SPACE, BS]; }
          }
        } else if 0x20 <= b < 0x7f && len < LINE_MAX {
          buf[len] := b;
          len := len + 1;
          if cap >= 1 { echo := [b]; }
        }
      }
    }
  }

  // ----- the echo on the terminal

  /**
   * From column `c0` of the cursor's row, the screen shows `text`, blanks after
   * it, and the cursor behind it.
   */
  ghost predicate ShowsText(s: Screen, c0: nat, text: seq<Byte>) {
    && WellFormed(s) && s.pstate == Normal
    && c0 + |text| <= COLS && s.x == c0 + |text|
    && (forall i | 0 <= i < |text| :: s.rows[s.y][c0 + i] == Cell(text[i], s.reverse))
    && (forall i | c0 + |text| <= i < COLS :: s.rows[s.y][i] == Blank(s.reverse))
  }

  /** Only columns from `c0` on the cursor's row differ. */
  ghost predicate SameElsewhere(s: Screen, t: Screen, c0: nat)
    requires WellFormed(s) && WellFormed(t)
  {
    && s.y == t.y && s.reverse == t.reverse
    && (forall r | 0 <= r < ROWS && r != s.y :: t.rows[r] == s.rows[r])
    && (forall i | 0 <= i < c0 && i < COLS :: t.rows[s.y][i] == s.rows[s.y][i])
  }

  lemma EchoOfCharacter(s: Screen, c0: nat, text: seq<Byte>, b: Byte)
    requires ShowsText(s, c0, text) && Printable(b) && c0 + |text| < COLS
    ensures var t := Feed(s, [b]); ShowsText(t, c0, text + [b]) && SameElsewhere(s, t, c0)
  {
  }

  lemma EchoOfErase(s: Screen, c0: nat, text: seq<Byte>)
    requires ShowsText(s, c0, text) && |text| > 0
    ensures var t := Feed(s, [BS, SPACE, BS]);
            ShowsText(t, c0, text[..|text| - 1]) && SameElsewhere(s, t, c0)
  {
    var back := FeedByte(s, BS);
    var erased := FeedByte(back, SPACE);
    var t := FeedByte(erased, BS);
    FeedOneByte(s, BS);
    FeedOneByte(back, SPACE);
    FeedOneByte(erased, BS);
    FeedAppend(s, [BS], [SPACE, BS]);
    FeedAppend(back, [SPACE], [BS]);
    assert [BS] + [SPACE, BS] == [BS, SPACE, BS] && [SPACE] + [BS] == [SPACE, BS];
    assert t == back.(rows := erased.rows, dirty := erased.dirty);
  }

  /** One byte that does not end the line, as long as the line still fits on the row. */
  lemma EchoKeepsShowing(s: Screen, c0: nat, l: Editing, b: Byte, cap: nat)
    requires ShowsText(s, c0, l.text) && b != CR && b != LF && cap >= 4
    requires c0 + |FeedLine(l, b, cap).line.text| <= COLS
    ensures var o := FeedLine(l, b, cap);
            var t := Feed(s, o.echo);
            !o.complete && ShowsText(t, c0, o.line.text) && SameElsewhere(s, t, c0)
  {
    if (b == DEL || b == BS) && |l.text| > 0 {
      EchoOfErase(s, c0, l.text);
    } else if Printable(b) && |l.text| < LINE_MAX {
      EchoOfCharacter(s, c0, l.text, b);
    }
  }

  /** The state after a sequence of bytes, and everything echoed on the way. */
  function FeedAll(l: Editing, bytes: seq<Byte>, cap: nat): (Editing, seq<Byte>)
    decreases |bytes|
  {
    if bytes == [] then (l, [])
    else
      var o := FeedLine(l, bytes[0], cap);
      var (l', echo) := FeedAll(o.line, bytes[1..], cap);
      (l', o.echo + echo)
  }

  /** The line never grows past `width` characters along the way. */
  ghost predicate StaysWithin(l: Editing, bytes: seq<Byte>, cap: nat, width: int)
    decreases |bytes|
  {
    |l.text| <= width && (bytes != [] ==> StaysWithin(FeedLine(l, bytes[0], cap).line, bytes[1..], cap, width))
  }

  /**
   * Whatever is typed and erased within the row, the terminal shows exactly the
   * line buffer, and nothing else on the screen changes.
   */
  lemma {:induction false} TerminalShowsLine(s: Screen, c0: nat, l: Editing, bytes: seq<Byte>, cap: nat)
    requires ShowsText(s, c0, l.text) && CR !in bytes && LF !in bytes && cap >= 4
    requires StaysWithin(l, bytes, cap, COLS - c0)
    ensures var (l', echo) := FeedAll(l, bytes, cap);
            var t := Feed(s, echo);
            ShowsText(t, c0, l'.text) && SameElsewhere(s, t, c0)
    decreases |bytes|
  {
    if bytes != [] {
      var o := FeedLine(l, bytes[0], cap);
      EchoKeepsShowing(s, c0, l, bytes[0], cap);
      var t := Feed(s, o.echo);
      TerminalShowsLine(t, c0, o.line, bytes[1..], cap);
      var (_, echo) := FeedAll(o.line, bytes[1..], cap);
      FeedAppend(s, o.echo, echo);
    }
  }

  // ----- the text is what was typed and not erased

  predicate IsErase(b: Byte) { b == DEL || b == BS }

  /** `text` without its last `n` characters, or nothing if there are fewer. */
  function Without(text: seq<Byte>, n: nat): seq<Byte> {
    if n >= |text| then [] else text[..|text| - n]
  }

  /**
   * What is left of `start` and the typed bytes, read from the last byte back:
   * each erase still pending takes the nearest character before it.
   */
  function Kept(start: seq<Byte>, bytes: seq<Byte>, pending: nat): seq<Byte>
    decreases |bytes|
  {
    if bytes == [] then Without(start, pending)
    else
      var b, front := bytes[|bytes| - 1], bytes[..|bytes| - 1];
      if IsErase(b) then Kept(start, front, pending + 1)
      else if !Printable(b) then Kept(start, front, pending)
      else if pending > 0 then Kept(start, front, pending - 1)
      else Kept(start, front, 0) + [b]
  }

  /** No character is typed while the buffer is full. */
  ghost predicate HasRoom(l: Editing, bytes: seq<Byte>, cap: nat)
    decreases |bytes|
  {
    bytes == [] ||
      (&& (Printable(bytes[0]) ==> |l.text| < LINE_MAX)
       && HasRoom(FeedLine(l, bytes[0], cap).line, bytes[1..], cap))
  }

  lemma {:induction false} FeedAllButLast(l: Editing, bytes: seq<Byte>, cap: nat)
    requires bytes != [] && HasRoom(l, bytes, cap)
    ensures var front, b := bytes[..|bytes| - 1], bytes[|bytes| - 1];
            var l' := FeedAll(l, front, cap).0;
            && HasRoom(l, front, cap) && (Printable(b) ==> |l'.text| < LINE_MAX)
            && FeedAll(l, bytes, cap).0 == FeedLine(l', b, cap).line
    decreases |bytes|
  {
    var front, b := bytes[..|bytes| - 1], bytes[|bytes| - 1];
    var next := FeedLine(l, bytes[0], cap).line;
    if |bytes| == 1 {
      assert bytes[1..] == [] && front == [];
      assert FeedAll(next, bytes[1..], cap).0 == next;
    } else {
      FeedAllButLast(next, bytes[1..], cap);
      assert bytes[1..][..|bytes| - 2] == front[1..] && front[0] == bytes[0];
    }
  }

  lemma {:induction false} TextIsWhatWasKept(l: Editing, bytes: seq<Byte>, cap: nat, pending: nat)
    requires HasRoom(l, bytes, cap)
    ensures Without(FeedAll(l, bytes, cap).0.text, pending) == Kept(l.text, bytes, pending)
    decreases |bytes|
  {
    if bytes != [] {
      var b, front := bytes[|bytes| - 1], bytes[..|bytes| - 1];
      FeedAllButLast(l, bytes, cap);
      var text := FeedAll(l, front, cap).0.text;
      if IsErase(b) {
        TextIsWhatWasKept(l, front, cap, pending + 1);
      } else if !Printable(b) {
        TextIsWhatWasKept(l, front, cap, pending);
      } else if pending > 0 {
        TextIsWhatWasKept(l, front, cap, pending - 1);
        assert (text + [b])[..|text|] == text;
      } else {
        TextIsWhatWasKept(l, front, cap, 0);
      }
    }
  }

  /**
   * The line holds the printable characters typed, in their order, without those
   * that were erased; line ends and other control bytes leave it as it is.
   */
  lemma LineHoldsWhatWasTyped(l: Editing, bytes: seq<Byte>, cap: nat)
    requires HasRoom(l, bytes, cap)
    ensures FeedAll(l, bytes, cap).0.text == Kept(l.text, bytes, 0)
  {
    TextIsWhatWasKept(l, bytes, cap, 0);
  }

  /** A full line takes no more characters, and the terminal is not told of them. */
  lemma FullLineIgnoresCharacters(l: Editing, b: Byte, cap: nat)
    requires |l.text| == LINE_MAX && Printable(b)
    ensures var o := FeedLine(l, b, cap); o.line.text == l.text && o.echo == [] && !o.complete
  {
  }

  // ----- line ends

  /** A line feed ends a line exactly when it does not directly follow a carriage return. */
  lemma LineFeedCompletes(l: Editing, b: Byte, cap: nat)
    ensures FeedLine(FeedLine(l, b, cap).line, LF, cap).complete <==> b != CR
  {
  }

  /**
   * The caller is told to reset the buffer after every completed line.  The
   * reset forgets the carriage return, so one CRLF pair completes two lines.
   */
  lemma CrLfAcrossReset(l: Editing, cap: nat)
    ensures FeedLine(l, CR, cap).complete
    ensures !FeedLine(FeedLine(l, CR, cap).line, LF, cap).complete
    ensures FeedLine(Fresh(), LF, cap) == Outcome(Fresh(), true, Fits([CR, LF], cap))
  {
  }
}
