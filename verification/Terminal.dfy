/** The current line of a VT100 terminal, as far as the line editor uses it. */
module Terminal {
  const NUL: char := '\0'
  const BEL: char := '\U{0007}'
  const BS: char := '\U{0008}'
  const CR: char := '\r'
  const LF: char := '\n'
  const ESC: char := '\U{001B}'
  const DEL: char := '\U{007F}'

  datatype Escape = Plain | Escaped | Csi

  /** Cells from the left margin on, the rest of the line being blank, and the column of the cursor. */
  datatype Screen = Screen(cells: string, col: nat, escape: Escape)

  /** The cursor at the start of an empty line. */
  const FRESH := Screen([], 0, Plain)

  predicate Printable(c: char) { ' ' <= c <= '~' }

  ghost predicate AllPrintable(s: string) { forall i :: 0 <= i < |s| ==> Printable(s[i]) }

  function Cell(s: Screen, i: nat): char { if i < |s.cells| then s.cells[i] else ' ' }

  function Written(s: Screen, c: char): Screen {
    var padded := s.cells + seq(if s.col < |s.cells| then 0 else s.col + 1 - |s.cells|, _ => ' ');
    s.(cells := padded[s.col := c], col := s.col + 1)
  }

  /** The terminal receives one character. */
  function Feed(s: Screen, c: char): Screen {
    if s.escape == Escaped then s.(escape := if c == '[' then Csi else Plain)
    else if s.escape == Csi then
      if c == 'C' then s.(col := s.col + 1, escape := Plain)
      else if c == 'K' then s.(cells := if s.col < |s.cells| then s.cells[..s.col] else s.cells, escape := Plain)
      else s.(escape := Plain)
    else if c == ESC then s.(escape := Escaped)
    else if c == CR then s.(col := 0)
    else if c == LF then s.(cells := [])
    else if c == BS then s.(col := if s.col > 0 then s.col - 1 else 0)
    else if Printable(c) then Written(s, c)
    else s
  }

  function FeedAll(s: Screen, cs: string): Screen {
    if cs == [] then s else Feed(FeedAll(s, cs[..|cs| - 1]), cs[|cs| - 1])
  }

  /** The line shows text, but for blanks behind it, with the cursor in column col. */
  ghost predicate Shows(s: Screen, text: string, col: nat) {
    s.escape == Plain && s.col == col && forall i: nat :: Cell(s, i) == if i < |text| then text[i] else ' '
  }

  /** The line begins with text and has the cursor right behind it. */
  ghost predicate Begins(s: Screen, text: string) {
    s.escape == Plain && s.col == |text| && forall i: nat :: i < |text| ==> Cell(s, i) == text[i]
  }

  lemma WrittenCells(s: Screen, c: char)
    ensures forall i: nat :: Cell(Written(s, c), i) == if i == s.col then c else Cell(s, i)
  {}

  /** Printing text moves on from what the line begins with, and shows nothing else if nothing was behind. */
  lemma {:induction false} Prints(s: Screen, text: string, more: string)
    requires AllPrintable(more)
    ensures Begins(s, text) ==> Begins(FeedAll(s, more), text + more)
    ensures Shows(s, text, |text|) ==> Shows(FeedAll(s, more), text + more, |text| + |more|)
  {
    if more == [] {
      assert text + more == text;
    } else {
      var k := |more| - 1;
      Prints(s, text, more[..k]);
      var t := FeedAll(s, more[..k]);
      WrittenCells(t, more[k]);
      assert text + more == text + more[..k] + [more[k]];
    }
  }

  /** Every cell of the line after printing. */
  lemma {:induction false} PrintedCells(s: Screen, more: string)
    requires AllPrintable(more) && s.escape == Plain
    ensures var t := FeedAll(s, more);
            && t.escape == Plain && t.col == s.col + |more|
            && forall i: nat :: Cell(t, i) == if s.col <= i < s.col + |more| then more[i - s.col] else Cell(s, i)
  {
    if more != [] {
      var k := |more| - 1;
      PrintedCells(s, more[..k]);
      WrittenCells(FeedAll(s, more[..k]), more[k]);
    }
  }

  lemma {:induction false} FeedJoin(s: Screen, a: string, b: string)
    ensures FeedAll(s, a + b) == FeedAll(FeedAll(s, a), b)
  {
    hide Feed;
    if b == [] {
      assert a + b == a;
    } else {
      var k := |b| - 1;
      FeedJoin(s, a, b[..k]);
      assert (a + b)[..|a| + k] == a + b[..k];
    }
  }

  /** Nothing is in the way of text: the cursor is at the start of a line that is blank where the text does not go.
      In the middle of an escape sequence the first character is lost on the terminal; then that one has to be on the
      line already, and the cursor behind it. */
  ghost predicate Settled(s: Screen, text: string)
    requires text != []
  {
    && (if s.escape == Plain then s.col == 0 else s.col == 1 && Cell(s, 0) == text[0])
    && forall i: nat :: |text| <= i ==> Cell(s, i) == ' '
  }

  /** Printing text shows that text alone exactly on a terminal that is settled for it. */
  lemma SettledShows(s: Screen, text: string)
    requires text != [] && AllPrintable(text) && text[0] !in {'[', 'C', 'K'}
    ensures Shows(FeedAll(s, text), text, |text|) <==> Settled(s, text)
  {
    hide Feed, FeedAll, Shows;
    if s.escape == Plain {
      LineShows(s, text, text);
    } else {
      var c, u, rest := text[0], s.(escape := Plain), text[1..];
      Swallowed(s, c);
      FeedFirst(s, text);
      LineShows(u, text, rest);
      assert forall i: nat :: Cell(s, i) == Cell(u, i);
    }
  }

  lemma Swallowed(s: Screen, c: char)
    requires s.escape != Plain && c !in {'[', 'C', 'K'}
    ensures Feed(s, c) == s.(escape := Plain)
  {}

  lemma FeedFirst(s: Screen, cs: string)
    requires cs != []
    ensures FeedAll(s, cs) == FeedAll(Feed(s, cs[0]), cs[1..])
  {
    hide Feed;
    FeedJoin(s, cs[..1], cs[1..]);
    assert cs == cs[..1] + cs[1..];
    FeedAppend(s, [], cs[0]);
    assert cs[..1] == [] + [cs[0]];
  }

  /** The same outside of an escape sequence, when only the end of text is still to be printed. */
  lemma LineShows(s: Screen, text: string, end: string)
    requires AllPrintable(end) && s.escape == Plain && |end| <= |text| && text[|text| - |end|..] == end
    ensures Shows(FeedAll(s, end), text, |text|) <==>
              && s.col == |text| - |end|
              && (forall i: nat :: i < s.col ==> Cell(s, i) == text[i])
              && forall i: nat :: |text| <= i ==> Cell(s, i) == ' '
  {
    hide FeedAll, Cell;
    PrintedCells(s, end);
    var t, k := FeedAll(s, end), |text| - |end|;
    assert forall i: nat :: k <= i < |text| ==> text[i] == end[i - k];
    if Shows(t, text, |text|) {
      forall i: nat | |text| <= i
        ensures Cell(s, i) == ' '
      {
        assert Cell(t, i) == ' ';
      }
      forall i: nat | i < s.col
        ensures Cell(s, i) == text[i]
      {
        assert Cell(t, i) == text[i];
      }
    }
  }

  /** Erasing to the end of the line leaves what it begins with. */
  lemma Erases(s: Screen, text: string)
    requires Begins(s, text)
    ensures Shows(FeedAll(s, [ESC, '[', 'K']), text, |text|)
  {
    FeedThree(s, ESC, '[', 'K');
  }

  lemma FeedThree(s: Screen, a: char, b: char, c: char)
    ensures FeedAll(s, [a, b, c]) == Feed(Feed(Feed(s, a), b), c)
  {
    assert [a, b, c][..2] == [a, b];
    assert [a, b][..1] == [a];
    assert FeedAll(s, [a]) == Feed(s, a);
  }

  lemma MovesRight(s: Screen, text: string, col: nat)
    requires Shows(s, text, col)
    ensures Shows(FeedAll(s, [ESC, '[', 'C']), text, col + 1)
  {
    FeedThree(s, ESC, '[', 'C');
  }

  lemma MovesLeft(s: Screen, text: string, col: nat)
    requires Shows(s, text, col)
    ensures Shows(Feed(s, BS), text, if col > 0 then col - 1 else 0)
  {}

  /** Backspace, blank, backspace takes the last character away. */
  lemma RubsOut(s: Screen, text: string)
    requires text != [] && Shows(s, text, |text|)
    ensures Shows(FeedAll(s, [BS, ' ', BS]), text[..|text| - 1], |text| - 1)
  {
    FeedThree(s, BS, ' ', BS);
    var back := Feed(s, BS);
    WrittenCells(back, ' ');
    forall i: nat
      ensures Cell(Written(back, ' '), i) == if i < |text| - 1 then text[i] else ' '
    {
      assert Cell(s, i) == Cell(back, i);
    }
    MovesLeft(Written(back, ' '), text[..|text| - 1], |text|);
  }

  /** A blank behind the text is not seen. */
  lemma BlankBehind(s: Screen, text: string)
    requires Shows(s, text, |text|)
    ensures Shows(Feed(s, ' '), text, |text| + 1)
  {
    WrittenCells(s, ' ');
  }

  lemma NewLine(s: Screen)
    requires s.escape == Plain
    ensures Feed(Feed(s, CR), LF) == FRESH
  {}

  lemma FeedAppend(s: Screen, cs: string, c: char)
    ensures FeedAll(s, cs + [c]) == Feed(FeedAll(s, cs), c)
  {
    assert (cs + [c])[..|cs|] == cs;
  }
}
