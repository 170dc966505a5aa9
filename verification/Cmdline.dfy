/** The line editor: a command buffer with an edit position, echoed to a VT100 terminal piece by piece, and the
    history of the last ten lines. */
module Cmdline {
  import opened Terminal
  import opened LineModel
  import opened Options

  const BUFFER_SIZE := 50
  const PROMPT: string := "cmd> "
  const NOTICE: string := "cmdline: "
  const NOT_FOUND: string := "command not found"

  /** The terminal shows the prompt and the text, with the cursor where editing takes place. */
  ghost predicate Shown(s: Screen, m: Line) { Shows(s, PROMPT + Text(m), |PROMPT| + |m.before|) }

  lemma BellShown(s: Screen, m: Line)
    requires Shown(s, m)
    ensures s.escape == Plain && Feed(s, BEL) == s
  {}

  lemma EchoShown(s: Screen, m: Line, c: char)
    requires Shown(s, m) && m.after == [] && Printable(c)
    ensures Shown(Feed(s, c), m.(before := m.before + [c], typed := true, touched := true))
  {
    assert FeedAll(s, []) == s;
    FeedAppend(s, [], c);
    assert [] + [c] == [c];
    var text := PROMPT + Text(m);
    assert Text(m) == m.before;
    Prints(s, text, [c]);
    assert text + [c] == PROMPT + (m.before + [c] + []);
  }

  lemma RubShown(s: Screen, m: Line)
    requires Shown(s, m) && m.after == [] && m.before != []
    ensures Shown(FeedAll(s, [BS, ' ', BS]), m.(before := m.before[..|m.before| - 1], touched := true))
  {
    var text, n := PROMPT + Text(m), |m.before| - 1;
    assert Text(m) == m.before;
    RubsOut(s, text);
    assert text[..|text| - 1] == PROMPT + (m.before[..n] + []);
  }

  lemma RightShown(s: Screen, m: Line)
    requires Shown(s, m) && m.after != []
    ensures Shown(FeedAll(s, [ESC, '[', 'C']), Arrow(m, 'C'))
  {
    MovesRight(s, PROMPT + Text(m), |PROMPT| + |m.before|);
    assert Text(Arrow(m, 'C')) == Text(m);
  }

  lemma LeftShown(s: Screen, m: Line)
    requires Shown(s, m) && m.before != []
    ensures Shown(Feed(s, BS), Arrow(m, 'D'))
  {
    MovesLeft(s, PROMPT + Text(m), |PROMPT| + |m.before|);
    assert Text(Arrow(m, 'D')) == Text(m);
  }

  class Editor {
    var buffer: array<char>
    var length: nat
    var editPos: nat
    var vt100: nat
    var history: array<string>
    var historyIdx: int
    var historyCnt: nat
    var historyCopy: bool
    var exec: Option<nat>
    const commands: seq<string>
    ghost var touched: bool
    ghost var screen: Screen

    /** Initialized, with the first prompt on an empty line. */
    constructor (commands: seq<string>)
      ensures Ready() && Now() == EMPTY && this.commands == commands && fresh(buffer) && fresh(history)
    {
      buffer := new char[BUFFER_SIZE](_ => NUL);
      history := new string[HISTORY_SIZE](_ => []);
      length, editPos, vt100 := 0, 0, 0;
      historyIdx, historyCnt, historyCopy, exec := -1, 0, false, None;
      this.commands := commands;
      touched, screen := false, FRESH;
      new;
      PrintPrompt();
      Prints(FRESH, [], PROMPT);
    }

    /** The fields are within their bounds. */
    ghost predicate Fits()
      reads this
    {
      && buffer.Length == BUFFER_SIZE && history.Length == HISTORY_SIZE
      && editPos <= length <= MAX_TEXT && historyCnt <= HISTORY_SIZE
    }

    ghost function Now(): Line
      requires Fits()
      reads this, buffer, history
    {
      Line(buffer[..editPos], buffer[editPos..length], vt100, history[..historyCnt], historyIdx, historyCopy, touched, exec)
    }

    ghost predicate Valid()
      reads this, buffer, history
    {
      Fits() && Sound(Now()) && RestEmpty()
    }

    /** The rows of the history not in use yet are empty. */
    ghost predicate RestEmpty()
      reads this`history, this`historyCnt, history
    {
      forall i :: historyCnt <= i < history.Length ==> history[i] == []
    }

    /** Between keys: the prompt is there, and no command is to be run. */
    ghost predicate Ready()
      reads this, buffer, history
    {
      Valid() && Shown(screen, Now()) && exec == None
    }

    method Emit(c: char)
      modifies this`screen
      ensures screen == Feed(old(screen), c)
    {
      screen := Feed(screen, c);
    }

    method EmitAll(s: string)
      modifies this`screen
      ensures screen == FeedAll(old(screen), s)
    {
      for i := 0 to |s|
        invariant screen == FeedAll(old(screen), s[..i])
      {
        assert s[..i + 1] == s[..i] + [s[i]];
        FeedAppend(old(screen), s[..i], s[i]);
        Emit(s[i]);
      }
      assert s[..|s|] == s;
    }

    method PrintPrompt()
      modifies this`screen
      ensures screen == FeedAll(old(screen), PROMPT)
    {
      EmitAll(PROMPT);
    }

    /** Writes the line anew; the cursor ends up behind it. */
    method Repaint()
      requires Fits() && AllPrintable(buffer[..length]) && screen.escape == Plain
      modifies this`screen
      ensures Shows(screen, PROMPT + buffer[..length], |PROMPT| + length)
    {
      hide Feed;
      StartOver(screen);
      Emit(CR);
      Prints(screen, [], PROMPT);
      PrintPrompt();
      assert [] + PROMPT == PROMPT;
      Erases(screen, PROMPT);
      EmitAll([ESC, '[', 'K']);
      ghost var s := screen;
      for i := 0 to length
        invariant screen == FeedAll(s, buffer[..i])
      {
        FeedAppend(s, buffer[..i], buffer[i]);
        assert buffer[..i + 1] == buffer[..i] + [buffer[i]];
        Emit(buffer[i]);
      }
      Prints(s, PROMPT, buffer[..length]);
    }

    /** Moves the cursor n columns back. */
    method StepBack(n: nat, ghost text: string, ghost col: nat)
      requires n <= col && Shows(screen, text, col)
      modifies this`screen
      ensures Shows(screen, text, col - n)
    {
      for i := 0 to n
        invariant Shows(screen, text, col - i)
      {
        MovesLeft(screen, text, col - i);
        Emit(BS);
      }
    }

    /** Makes room for one character at the edit position. */
    method OpenGap()
      requires Fits() && editPos < length < MAX_TEXT
      modifies buffer
      ensures buffer[..editPos] == old(buffer[..editPos]) && buffer[editPos + 1..length + 1] == old(buffer[editPos..length])
    {
      var i := length + 1;
      while i > editPos
        invariant editPos <= i <= length + 1
        invariant forall k :: 0 <= k < i ==> buffer[k] == old(buffer[k])
        invariant forall k :: i < k <= length + 1 ==> buffer[k] == old(buffer[k - 1])
      {
        buffer[i] := buffer[i - 1];
        i := i - 1;
      }
    }

    /** Closes up on the character at the edit position. */
    method CloseGap()
      requires Fits() && editPos < length
      modifies buffer
      ensures buffer[..editPos] == old(buffer[..editPos]) && buffer[editPos..length] == old(buffer[editPos + 1..length + 1])
    {
      var i := editPos;
      while i < length
        invariant editPos <= i <= length
        invariant buffer[..editPos] == old(buffer[..editPos])
        invariant forall k :: editPos <= k < i ==> buffer[k] == old(buffer[k + 1])
        invariant forall k :: i <= k <= length ==> buffer[k] == old(buffer[k])
      {
        buffer[i] := buffer[i + 1];
        i := i + 1;
      }
    }

    /** Puts a character in at the edit position. */
    method Place(c: char)
      requires Fits() && length < MAX_TEXT
      modifies this`length, this`editPos, this`historyCopy, this`touched, buffer
      ensures Fits() && Now() == old(Now()).(before := old(Now().before) + [c], typed := true, touched := true)
    {
      ghost var before, after := buffer[..editPos], buffer[editPos..length];
      if editPos < length {
        OpenGap();
      }
      length := length + 1;
      buffer[editPos] := c;
      editPos := editPos + 1;
      historyCopy, touched := true, true;
      assert buffer[..editPos] == before + [c];
      assert buffer[editPos..length] == after;
    }

    /** A printable character: put in at the edit position, if there is room. */
    method Insert(c: char)
      requires Ready() && vt100 == 0 && Printable(c)
      modifies this`length, this`editPos, this`historyCopy, this`touched, this`screen, buffer
      ensures Ready() && Now() == Regular(old(Now()), c, commands)
    {
      hide Sound, Shown, Feed, Regular, RestEmpty;
      RegularSound(Now(), c, commands);
      RegularInsert(Now(), c, commands);
      BellShown(screen, Now());
      if length >= BUFFER_SIZE - 2 {
        Emit(BEL);
      } else if editPos == length {
        EchoShown(screen, Now(), c);
        Emit(c);
        Place(c);
      } else {
        Place(c);
        RepaintAndStepBack();
      }
    }

    /** Writes the line anew and goes back to the edit position. */
    method RepaintAndStepBack()
      requires Valid() && screen.escape == Plain
      modifies this`screen
      ensures Shown(screen, Now())
    {
      hide Shows, Feed;
      assert buffer[..length] == Text(Now());
      Repaint();
      StepBack(length - editPos, PROMPT + buffer[..length], |PROMPT| + length);
    }

    /** Takes the character in front of the edit position out. */
    method Remove()
      requires Fits() && editPos > 0
      modifies this`length, this`editPos, this`touched, buffer
      ensures Fits() && Now() == old(Now()).(before := old(Now().before[..editPos - 1]), touched := true)
    {
      ghost var before, after := buffer[..editPos], buffer[editPos..length];
      length := length - 1;
      editPos := editPos - 1;
      touched := true;
      if editPos < length {
        CloseGap();
      }
      assert buffer[..editPos] == before[..editPos];
      assert buffer[editPos..length] == after;
    }

    /** Writes a line that has become shorter anew, clears what is left over, and goes back. */
    method RepaintShorter()
      requires Valid() && screen.escape == Plain
      modifies this`screen
      ensures Shown(screen, Now())
    {
      hide Shows, Feed;
      assert buffer[..length] == Text(Now());
      Repaint();
      BlankBehind(screen, PROMPT + buffer[..length]);
      Emit(' ');
      StepBack(length + 1 - editPos, PROMPT + buffer[..length], |PROMPT| + length + 1);
    }

    /** The delete key: takes away the character in front of the cursor. */
    method Delete()
      requires Ready() && vt100 == 0
      modifies this`length, this`editPos, this`touched, this`screen, buffer
      ensures Ready() && Now() == Regular(old(Now()), DEL, commands)
    {
      hide Sound, Shown, Feed, FeedAll, Regular, RestEmpty;
      RegularDelete(Now(), commands);
      BellShown(screen, Now());
      if editPos == 0 {
        Emit(BEL);
      } else if editPos == length {
        DeleteLast();
      } else {
        DeleteInside();
      }
    }

    method DeleteLast()
      requires Ready() && vt100 == 0 && 0 < editPos == length
      modifies this`length, this`editPos, this`touched, this`screen, buffer
      ensures Ready() && Now() == Regular(old(Now()), DEL, commands)
    {
      hide Sound, Shown, Feed, FeedAll, Regular, RestEmpty;
      RegularSound(Now(), DEL, commands);
      RegularDelete(Now(), commands);
      RubShown(screen, Now());
      EmitAll([BS, ' ', BS]);
      Remove();
    }

    method DeleteInside()
      requires Ready() && vt100 == 0 && 0 < editPos < length
      modifies this`length, this`editPos, this`touched, this`screen, buffer
      ensures Ready() && Now() == Regular(old(Now()), DEL, commands)
    {
      hide Sound, Shown, Feed, FeedAll, Regular, RestEmpty;
      RegularSound(Now(), DEL, commands);
      RegularDelete(Now(), commands);
      BellShown(screen, Now());
      Remove();
      RepaintShorter();
    }

    /** The right arrow key. */
    method MoveRight()
      requires Ready()
      modifies this`editPos, this`screen
      ensures Ready() && Now() == Arrow(old(Now()), 'C')
    {
      hide Sound, Shown, Feed, RestEmpty;
      ghost var was := Now();
      ArrowSound(was, 'C');
      BellShown(screen, was);
      if editPos < length {
        editPos := editPos + 1;
        RightShown(screen, was);
        EmitAll([ESC, '[', 'C']);
        assert buffer[..editPos] == was.before + [was.after[0]];
      } else {
        Emit(BEL);
      }
    }

    /** The left arrow key. */
    method MoveLeft()
      requires Ready()
      modifies this`editPos, this`screen
      ensures Ready() && Now() == Arrow(old(Now()), 'D')
    {
      hide Sound, Shown, Feed, RestEmpty;
      ghost var was := Now();
      ArrowSound(was, 'D');
      BellShown(screen, was);
      if editPos > 0 {
        editPos := editPos - 1;
        LeftShown(screen, was);
        Emit(BS);
        assert buffer[..editPos] == was.before[..editPos];
        assert buffer[editPos..length] == [was.before[editPos]] + was.after;
      } else {
        Emit(BEL);
      }
    }

    /** The buffer holds text, ended by a NUL. */
    ghost predicate Holds(text: string)
      reads this`buffer, buffer
    {
      |text| < buffer.Length && buffer[..|text|] == text && buffer[|text|] == NUL && AllPrintable(text)
    }

    /** strcpy of a line into the buffer. */
    method CopyIn(row: string)
      requires |row| < buffer.Length && AllPrintable(row)
      modifies buffer
      ensures Holds(row)
    {
      for i := 0 to |row|
        invariant buffer[..i] == row[..i]
      {
        buffer[i] := row[i];
      }
      buffer[|row|] := NUL;
    }

    /** strlen of the buffer. */
    method StrLen(ghost text: string) returns (n: nat)
      requires Holds(text)
      ensures n == |text|
    {
      n := 0;
      while buffer[n] != NUL
        invariant n <= |text|
        decreases |text| - n
      {
        assert n < |text| ==> Printable(buffer[..|text|][n]);
        n := n + 1;
      }
      assert n < |text| ==> Printable(buffer[..|text|][n]);
    }

    /** Puts a line of the history into the buffer, with the edit position at its end. */
    method Load(row: string)
      requires Fits() && |row| <= MAX_TEXT && AllPrintable(row)
      modifies this`length, this`editPos, this`historyCopy, this`touched, buffer
      ensures Fits() && Now() == old(Now()).(before := row, after := [], typed := false, touched := false)
    {
      CopyIn(row);
      length := StrLen(row);
      editPos := length;
      historyCopy, touched := false, false;
    }

    /** Goes one entry on in the history, within what there is. */
    method Browse(next: bool)
      modifies this`historyIdx
      ensures historyIdx == Clamped(old(historyIdx) + if next then -1 else 1, historyCnt)
    {
      if next {
        historyIdx := historyIdx - 2;
      }
      historyIdx := historyIdx + 1;
      if historyIdx >= historyCnt - 1 {
        historyIdx := historyCnt - 1;
      }
      if historyIdx < 0 {
        historyIdx := 0;
      }
    }

    /** The up and down arrow keys: one of the lines entered last takes the place of the text. */
    method Recall(next: bool)
      requires Ready()
      modifies this`length, this`editPos, this`historyIdx, this`historyCopy, this`touched, this`screen, buffer
      ensures Ready() && Now() == Arrow(old(Now()), if next then 'B' else 'A')
    {
      hide Shown, Sound, Feed, RestEmpty;
      ghost var was, key := Now(), if next then 'B' else 'A';
      ghost var now := Arrow(was, key);
      ArrowSound(was, key);
      SoundText(now);
      BellShown(screen, was);
      FirstRow();
      Browse(next);
      assert history[historyIdx] == now.before == Text(now);
      Load(history[historyIdx]);
      assert Now() == now;
      RepaintAndStepBack();
    }

    lemma FirstRow()
      requires Fits() && RestEmpty()
      ensures historyCnt == 0 ==> history[0] == []
    {}

    /** Moves the first i lines of the history one row down and puts a new one in front. */
    method PushRow(row: string, i0: nat)
      requires i0 < history.Length
      modifies history
      ensures history[..] == Pushed(old(history[..]), row, i0)
    {
      var i := i0;
      while i > 0
        invariant 0 <= i <= i0
        invariant forall k :: 0 <= k <= i || i0 < k < history.Length ==> history[k] == old(history[k])
        invariant forall k :: i < k <= i0 ==> history[k] == old(history[k - 1])
      {
        history[i] := history[i - 1];
        i := i - 1;
      }
      history[0] := row;
    }

    /** Saves the line in the buffer in the history. */
    method Save(ghost text: string)
      requires Holds(text) && history.Length == HISTORY_SIZE && historyCnt <= HISTORY_SIZE && RestEmpty()
      requires text != [] && !historyCopy ==> 0 <= historyIdx < historyCnt
      modifies this`historyCnt, history
      ensures historyCnt <= HISTORY_SIZE && RestEmpty()
      ensures history[..historyCnt] == Saved(text, historyCopy, old(history[..historyCnt]), historyIdx)
    {
      var n := StrLen(text);
      if n > 0 {
        var i;
        ghost var rows, cnt := history[..], historyCnt;
        if historyCopy {
          if historyCnt >= HISTORY_SIZE {
            historyCnt := HISTORY_SIZE - 1;
          }
          i := historyCnt;
          historyCnt := historyCnt + 1;
          PushedRemembers(rows, cnt, text);
        } else {
          i := historyIdx;
          PushedRefreshes(rows, cnt, text, i);
        }
        PushRow(buffer[..n], i);
        assert history[..historyCnt] == history[..][..historyCnt];
        assert history[..cnt] == history[..][..cnt];
      }
    }

    /** The length of the first word in the buffer. */
    method WordLength(ghost text: string) returns (i: nat)
      requires Holds(text)
      ensures i == |Word(text)| <= |text| && buffer[..i] == Word(text)
    {
      i := 0;
      while !(buffer[i] == ' ' || buffer[i] == NUL)
        invariant i <= |Word(text)| <= |text|
        decreases |text| - i
      {
        WordEnds(text, i);
        assert i < |text| ==> buffer[i] == text[i];
        i := i + 1;
      }
      WordEnds(text, i);
      assert i < |text| ==> buffer[i] == text[i];
      assert buffer[..i] == text[..i];
    }

    /** Reports the first word in the buffer as an unknown command. */
    method PrintError(ghost text: string)
      requires Holds(text)
      modifies this`screen
      ensures screen == FeedAll(old(screen), ErrorLine(Word(text)))
    {
      EmitAll(NOTICE);
      ghost var word, s := Word(text), screen;
      var i := 0;
      while buffer[i] != NUL && buffer[i] != ' '
        invariant i <= |word| <= |text| && screen == FeedAll(s, word[..i])
        decreases |text| - i
      {
        WordEnds(text, i);
        assert i < |text| ==> buffer[i] == text[i];
        FeedAppend(s, word[..i], word[i]);
        assert word[..i + 1] == word[..i] + [word[i]];
        Emit(buffer[i]);
        i := i + 1;
      }
      WordEnds(text, i);
      assert i < |text| ==> buffer[i] == text[i];
      assert word[..i] == word;
      EmitAll(": ");
      EmitAll(NOT_FOUND);
      EmitAll([CR, LF]);
      FeedJoin(old(screen), NOTICE, word);
      FeedJoin(old(screen), NOTICE + word, ": ");
      FeedJoin(old(screen), NOTICE + word + ": ", NOT_FOUND);
      FeedJoin(old(screen), NOTICE + word + ": " + NOT_FOUND, [CR, LF]);
    }

    /** Looks the entered command up.  A command found is left for the main loop; otherwise a new prompt appears,
        behind a message if there was a word at all. */
    method Process(ghost text: string)
      requires Holds(text) && history.Length == HISTORY_SIZE && historyCnt <= HISTORY_SIZE && RestEmpty()
      requires text != [] && !historyCopy ==> 0 <= historyIdx < historyCnt
      requires screen == FRESH && exec == None
      modifies this`historyCnt, this`exec, this`screen, history
      ensures historyCnt <= HISTORY_SIZE && RestEmpty()
      ensures history[..historyCnt] == Saved(text, historyCopy, old(history[..historyCnt]), historyIdx)
      ensures exec == if Word(text) == [] then None else Match(commands, Word(text), 0)
      ensures screen == if exec == None then FeedAll(FRESH, PROMPT) else FRESH
    {
      hide Saved, RestEmpty, FeedAll, Word;
      Save(text);
      var i := WordLength(text);
      if i == 0 {
        PrintPrompt();
        return;
      }
      var k := 0;
      while k < |commands|
        invariant 0 <= k <= |commands|
        invariant Match(commands, Word(text), 0) == Match(commands, Word(text), k)
      {
        if buffer[..i] <= commands[k] {
          exec := Some(k);
          return;
        }
        k := k + 1;
      }
      WordPrintable(text);
      ErrorLineFresh(Word(text));
      PrintError(text);
      PrintPrompt();
    }

    /** Ends the line on the terminal and in the buffer. */
    method Complete(ghost text: string)
      requires Fits() && Text(Now()) == text && AllPrintable(text) && screen.escape == Plain
      modifies this`length, this`editPos, this`screen, buffer
      ensures Holds(text) && screen == FRESH
    {
      hide Feed;
      NewLine(screen);
      Emit(CR);
      Emit(LF);
      assert buffer[..length] == text;
      buffer[length] := NUL;
      length := length + 1;
      editPos := editPos + 1;
      assert buffer[..length - 1] == text;
    }

    /** Processes a complete line and empties the buffer. */
    method Submit(ghost text: string)
      requires Holds(text) && buffer.Length == BUFFER_SIZE
      requires history.Length == HISTORY_SIZE && historyCnt <= HISTORY_SIZE && RestEmpty()
      requires text != [] && !historyCopy ==> 0 <= historyIdx < historyCnt
      requires screen == FRESH && exec == None && vt100 == 0
      modifies this`length, this`editPos, this`historyIdx, this`historyCnt, this`historyCopy, this`touched, this`exec,
        this`screen, history
      ensures Fits() && RestEmpty()
      ensures Now() == Submitted(text, old(historyCopy), old(history[..historyCnt]), old(historyIdx), commands)
      ensures screen == if exec == None then FeedAll(FRESH, PROMPT) else FRESH
    {
      hide RestEmpty, Holds, Word, Match, Saved, FeedAll;
      Process(text);
      length, editPos, historyCopy, historyIdx, touched := 0, 0, false, -1, false;
    }

    /** The ENTER key. */
    method Enter()
      requires Ready() && vt100 == 0
      modifies this`length, this`editPos, this`historyIdx, this`historyCnt, this`historyCopy, this`touched, this`exec,
        this`screen, buffer, history
      ensures AfterKey() && Now() == Regular(old(Now()), CR, commands)
    {
      hide Sound, Feed, Shown, RestEmpty, Regular, Submitted, FeedAll, Holds;
      ghost var was, text := Now(), Text(Now());
      RegularSound(was, CR, commands);
      RegularEnter(was, commands);
      SoundText(was);
      BellShown(screen, was);
      Complete(text);
      Submit(text);
      SubmittedIsEmpty(Now(), text, was.typed, was.recent, was.idx, commands);
      FreshPrompt(Now());
    }

    /** A turn of the main loop: a command that is waiting is run, and a prompt follows its output.  The prompt is
        shown as it should be exactly if the output leaves the terminal settled for it. */
    method MainLoop(output: string)
      requires AfterKey()
      modifies this`exec, this`screen
      ensures Valid() && exec == None && Now() == old(Now()).(waiting := None)
      ensures old(exec) == None ==> Ready()
      ensures old(exec) != None ==> (Ready() <==> Settled(FeedAll(FRESH, output), PROMPT))
    {
      hide Sound, Feed, FeedAll, Shows, RestEmpty, Settled;
      WaitingSound(Now());
      if exec != None {
        EmitAll(output);
        exec := None;
        ghost var s := screen;
        PrintPrompt();
        assert PROMPT + Text(Now()) == PROMPT;
        SettledShows(s, PROMPT);
      }
    }

    /** After a key: the prompt is there, or a command is to be run and the terminal on a new line. */
    ghost predicate AfterKey()
      reads this, buffer, history
    {
      Valid() && (if exec == None then Shown(screen, Now()) else screen == FRESH && Text(Now()) == [])
    }

    /** The last character of an arrow key. */
    method Arrows(c: char)
      requires Ready()
      modifies this`length, this`editPos, this`historyIdx, this`historyCopy, this`touched, this`screen, buffer
      ensures Ready() && Now() == Arrow(old(Now()), c)
    {
      hide Sound, Feed, Shown, RestEmpty;
      if c == 'A' {
        Recall(false);
      } else if c == 'B' {
        Recall(true);
      } else if c == 'C' {
        MoveRight();
      } else if c == 'D' {
        MoveLeft();
      }
    }

    /** Any character that is not part of an arrow key. */
    method Other(c: char)
      requires Ready() && vt100 == 0
      modifies this`length, this`editPos, this`vt100, this`historyIdx, this`historyCnt, this`historyCopy, this`touched,
        this`exec, this`screen, buffer, history
      ensures AfterKey() && Now() == Regular(old(Now()), c, commands)
    {
      hide Sound, Feed, Shown, RestEmpty;
      if Printable(c) {
        Insert(c);
      } else if c == CR {
        Enter();
      } else if c == DEL {
        Delete();
      } else if c == ESC {
        SetState(1);
      }
    }

    method SetState(state: nat)
      requires Ready() && state <= 2
      modifies this`vt100
      ensures Ready() && Now() == old(Now()).(keys := state)
    {
      vt100 := state;
      SameTextSound(old(Now()), Now());
    }

    /** One character of input. */
    method Input(c: char)
      requires Ready()
      modifies this`length, this`editPos, this`vt100, this`historyIdx, this`historyCnt, this`historyCopy, this`touched,
        this`exec, this`screen, buffer, history
      ensures AfterKey() && Now() == Pressed(old(Now()), c, commands)
    {
      hide Sound, Feed, Shown, RestEmpty, Arrow, Regular;
      if vt100 == 2 {
        Arrows(c);
        SetState(0);
      } else if vt100 == 1 && c == '[' {
        SetState(2);
      } else {
        SetState(0);
        Other(c);
      }
    }

    /** Every run of keys, each followed by a turn of the main loop in which a command may print whole lines: what
        is on the terminal and in the buffer is the line of the model. */
    method Session(keys: string, outputs: seq<string>)
      requires Ready() && |outputs| == |keys| && forall o <- outputs :: Settled(FeedAll(FRESH, o), PROMPT)
      modifies this`length, this`editPos, this`vt100, this`historyIdx, this`historyCnt, this`historyCopy, this`touched,
        this`exec, this`screen, buffer, history
      ensures Ready() && Now() == Run(old(Now()), keys, commands)
    {
      hide Sound, Feed, Shown, RestEmpty, Pressed;
      ghost var start := Now();
      for i := 0 to |keys|
        invariant Ready() && Sound(start) && Now() == Run(start, keys[..i], commands)
      {
        assert keys[..i + 1][..i] == keys[..i];
        Input(keys[i]);
        assert outputs[i] in outputs;
        MainLoop(outputs[i]);
      }
      assert keys[..|keys|] == keys;
    }
  }

  lemma WaitingSound(m: Line)
    requires Sound(m)
    ensures Sound(m.(waiting := None))
  {}

  lemma RegularInsert(m: Line, c: char, commands: seq<string>)
    requires Sound(m) && Printable(c)
    ensures Regular(m, c, commands) ==
            if |Text(m)| < MAX_TEXT then m.(before := m.before + [c], typed := true, touched := true) else m
  {}

  lemma RegularDelete(m: Line, commands: seq<string>)
    requires Sound(m)
    ensures Regular(m, DEL, commands) ==
            if m.before == [] then m else m.(before := m.before[..|m.before| - 1], touched := true)
  {}

  lemma SoundText(m: Line)
    requires Sound(m)
    ensures |Text(m)| <= MAX_TEXT && AllPrintable(Text(m))
  {}

  /** The rows of the history with a new one in front and the one at i gone. */
  ghost function Pushed(rows: seq<string>, row: string, i: nat): seq<string>
    requires i < |rows|
  {
    [row] + rows[..i] + rows[i + 1..]
  }

  lemma PushedRemembers(rows: seq<string>, cnt: nat, row: string)
    requires cnt <= |rows| == HISTORY_SIZE
    ensures var i := if cnt >= HISTORY_SIZE then HISTORY_SIZE - 1 else cnt;
            Pushed(rows, row, i)[..i + 1] == Remembered(row, rows[..cnt]) && Pushed(rows, row, i)[i + 1..] == rows[i + 1..]
  {}

  lemma PushedRefreshes(rows: seq<string>, cnt: nat, row: string, i: nat)
    requires i < cnt <= |rows| == HISTORY_SIZE
    ensures Pushed(rows, row, i)[..cnt] == Refreshed(row, rows[..cnt], i) && Pushed(rows, row, i)[cnt..] == rows[cnt..]
  {}

  lemma WordEnds(text: string, i: nat)
    requires i <= |Word(text)|
    ensures i == |Word(text)| <==> (i == |text| || text[i] == ' ')
    ensures i <= |text| && text[..i] == Word(text)[..i]
  {
    var w := Word(text);
    assert i < |w| ==> w[i] == text[i] && w[i] in w;
    assert text[..i] == w[..i];
  }

  lemma WordPrintable(text: string)
    requires AllPrintable(text)
    ensures AllPrintable(Word(text))
  {}

  function ErrorLine(word: string): string { NOTICE + word + ": " + NOT_FOUND + [CR, LF] }

  /** The message leaves the terminal on a new line. */
  lemma ErrorLineFresh(word: string)
    requires AllPrintable(word)
    ensures FeedAll(FRESH, ErrorLine(word)) == FRESH
  {
    var line := NOTICE + word + ": " + NOT_FOUND;
    FeedJoin(FRESH, line, [CR, LF]);
    Prints(FRESH, [], line);
    var s := FeedAll(FRESH, line);
    NewLine(s);
    FeedAppend(s, [CR], LF);
    FeedAppend(s, [], CR);
    assert [CR] + [LF] == [CR, LF] && [] + [CR] == [CR];
  }

  lemma FreshPrompt(m: Line)
    requires Text(m) == []
    ensures Shown(FeedAll(FRESH, PROMPT), m)
  {
    Prints(FRESH, [], PROMPT);
    assert [] + PROMPT == PROMPT + Text(m);
  }

  lemma RegularEnter(m: Line, commands: seq<string>)
    requires Sound(m)
    ensures Text(m) != [] && !m.typed ==> 0 <= m.idx < |m.recent|
    ensures Regular(m, CR, commands) ==
            Submitted(Text(m), m.typed, m.recent, m.idx, commands)
  {}

  lemma SubmittedIsEmpty(m: Line, text: string, typed: bool, recent: seq<string>, idx: int, commands: seq<string>)
    requires (text != [] && !typed ==> 0 <= idx < |recent|) && m == Submitted(text, typed, recent, idx, commands)
    ensures Text(m) == []
  {}

  lemma StartOver(s: Screen)
    requires s.escape == Plain
    ensures Begins(Feed(s, CR), [])
  {}
}
