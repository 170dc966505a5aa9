/** What the command line is to its user: the text before and behind the cursor, and the lines entered last. */
module LineModel {
  import opened Terminal
  import opened Options

  const HISTORY_SIZE := 10
  const MAX_TEXT := 48

  /** before and after are the text on both sides of the cursor; keys counts how much of an arrow key has
      arrived; recent are the lines entered last, the newest first, and idx the one looked at; typed says that
      a character has been typed into the line and touched that it has been changed in any way since it was
      empty or recalled; waiting is a command to be run. */
  datatype Line = Line(before: string, after: string, keys: nat, recent: seq<string>, idx: int, typed: bool,
                       touched: bool, waiting: Option<nat>)

  const EMPTY := Line([], [], 0, [], -1, false, false, None)

  function Text(m: Line): string { m.before + m.after }

  /** A newly typed line goes to the front, and the oldest one out if there are too many. */
  function Remembered(text: string, recent: seq<string>): seq<string> {
    [text] + recent[..if |recent| < HISTORY_SIZE then |recent| else HISTORY_SIZE - 1]
  }

  /** A line put to the front in place of the one at idx. */
  function Refreshed(text: string, recent: seq<string>, idx: int): seq<string>
    requires 0 <= idx < |recent|
  {
    [text] + recent[..idx] + recent[idx + 1..]
  }

  /** The lines entered last, once text is entered as well. */
  function Saved(text: string, typed: bool, recent: seq<string>, idx: int): seq<string>
    requires text != [] && !typed ==> 0 <= idx < |recent|
  {
    if text == [] then recent
    else if typed then Remembered(text, recent)
    else Refreshed(text, recent, idx)
  }

  /** The characters in front of the first blank. */
  function Word(text: string): (w: string)
    ensures w <= text && ' ' !in w
    ensures |w| < |text| ==> text[|w|] == ' '
  {
    if text == [] || text[0] == ' ' then [] else [text[0]] + Word(text[1..])
  }

  /** The first of the commands, from the k-th on, that starts with the word. */
  function Match(commands: seq<string>, word: string, k: nat): (r: Option<nat>)
    requires k <= |commands|
    ensures r.Some? ==> k <= r.value < |commands| && word <= commands[r.value]
    ensures forall j :: k <= j < (if r.Some? then r.value else |commands|) ==> !(word <= commands[j])
    decreases |commands| - k
  {
    if k == |commands| then None else if word <= commands[k] then Some(k) else Match(commands, word, k + 1)
  }

  /** The line left behind when text is entered. */
  function Submitted(text: string, typed: bool, recent: seq<string>, idx: int, commands: seq<string>): Line
    requires text != [] && !typed ==> 0 <= idx < |recent|
  {
    EMPTY.(recent := Saved(text, typed, recent, idx),
           waiting := if Word(text) == [] then None else Match(commands, Word(text), 0))
  }

  function Entered(m: Line, commands: seq<string>): Line
    requires Sound(m)
  {
    Submitted(Text(m), m.typed, m.recent, m.idx, commands)
  }

  function Clamped(i: int, count: nat): int {
    var j := if i >= count - 1 then count - 1 else i;
    if j < 0 then 0 else j
  }

  /** Looking at the i-th line entered, or the nearest there is. */
  function Recalled(m: Line, i: int): Line {
    var at := Clamped(i, |m.recent|);
    var text := if m.recent == [] then [] else m.recent[at];
    m.(before := text, after := [], idx := at, typed := false, touched := false)
  }

  function Arrow(m: Line, c: char): Line {
    var n := |m.before|;
    if c == 'A' then Recalled(m, m.idx + 1)
    else if c == 'B' then Recalled(m, m.idx - 1)
    else if c == 'C' && m.after != [] then m.(before := m.before + [m.after[0]], after := m.after[1..])
    else if c == 'D' && n > 0 then m.(before := m.before[..n - 1], after := [m.before[n - 1]] + m.after)
    else m
  }

  function Regular(m: Line, c: char, commands: seq<string>): Line
    requires Sound(m)
  {
    var n := |m.before|;
    if Printable(c) then
      if |Text(m)| < MAX_TEXT then m.(before := m.before + [c], typed := true, touched := true) else m
    else if c == CR then Entered(m, commands)
    else if c == DEL && n > 0 then m.(before := m.before[..n - 1], touched := true)
    else if c == ESC then m.(keys := 1)
    else m
  }

  /** One character from the keyboard. */
  function Pressed(m: Line, c: char, commands: seq<string>): Line
    requires Sound(m)
  {
    if m.keys == 2 then Arrow(m, c).(keys := 0)
    else if m.keys == 1 && c == '[' then m.(keys := 2)
    else Regular(m.(keys := 0), c, commands)
  }

  /** What holds of the line in every run. */
  ghost predicate Sound(m: Line) {
    && |Text(m)| <= MAX_TEXT && AllPrintable(Text(m)) && m.keys <= 2
    && |m.recent| <= HISTORY_SIZE && (forall r <- m.recent :: 0 < |r| <= MAX_TEXT && AllPrintable(r))
    && -1 <= m.idx && (m.idx < |m.recent| || m.idx == 0)
    && (Text(m) != [] && !m.typed ==> 0 <= m.idx < |m.recent|)
    && (Text(m) != [] && !m.touched ==> !m.typed && Text(m) == m.recent[m.idx])
  }

  lemma RecalledSound(m: Line, i: int)
    requires Sound(m)
    ensures Sound(Recalled(m, i))
  {
    var at := Clamped(i, |m.recent|);
    assert m.recent != [] ==> m.recent[at] in m.recent;
  }

  lemma SameTextSound(m: Line, r: Line)
    requires Sound(m) && Text(r) == Text(m) && (r.keys == m.keys || r.keys <= 2)
    requires r.recent == m.recent && r.idx == m.idx && r.typed == m.typed && r.touched == m.touched
    ensures Sound(r)
  {}

  lemma PrintableParts(a: string, b: string)
    ensures AllPrintable(a + b) <==> AllPrintable(a) && AllPrintable(b)
  {
    var s := a + b;
    assert forall i :: 0 <= i < |a| ==> a[i] == s[i];
    assert forall i :: 0 <= i < |b| ==> b[i] == s[|a| + i];
  }

  lemma ArrowSound(m: Line, c: char)
    requires Sound(m)
    ensures Sound(Arrow(m, c))
  {
    hide Sound, Recalled;
    var r := Arrow(m, c);
    if c == 'A' {
      RecalledSound(m, m.idx + 1);
    } else if c == 'B' {
      RecalledSound(m, m.idx - 1);
    } else {
      assert Text(r) == Text(m);
      SameTextSound(m, r);
    }
  }

  lemma EnteredSound(m: Line, commands: seq<string>)
    requires Sound(m)
    ensures Sound(Entered(m, commands))
  {}

  lemma RegularSound(m: Line, c: char, commands: seq<string>)
    requires Sound(m) && m.keys == 0
    ensures Sound(Regular(m, c, commands))
  {
    var n := |m.before|;
    PrintableParts(m.before, m.after);
    PrintableParts(m.before + [c], m.after);
    if c == CR {
      EnteredSound(m, commands);
    } else if c == DEL && n > 0 {
      PrintableParts(m.before[..n - 1], m.after);
    }
  }

  /** Every key keeps the line within its bounds and the history index and count in range. */
  lemma PressedSound(m: Line, c: char, commands: seq<string>)
    requires Sound(m)
    ensures Sound(Pressed(m, c, commands))
  {
    if m.keys == 2 {
      ArrowSound(m, c);
    } else if !(m.keys == 1 && c == '[') {
      RegularSound(m.(keys := 0), c, commands);
    }
  }

  /** A key, and then a turn of the main loop that runs the command if there is one. */
  function Turn(m: Line, c: char, commands: seq<string>): (r: Line)
    requires Sound(m)
    ensures Sound(r)
  {
    PressedSound(m, c, commands);
    Pressed(m, c, commands).(waiting := None)
  }

  function Run(m: Line, keys: string, commands: seq<string>): (r: Line)
    requires Sound(m)
    ensures Sound(r)
  {
    if keys == [] then m else Turn(Run(m, keys[..|keys| - 1], commands), keys[|keys| - 1], commands)
  }

  lemma {:induction false} RunThen(m: Line, a: string, b: string, commands: seq<string>)
    requires Sound(m)
    ensures Run(m, a + b, commands) == Run(Run(m, a, commands), b, commands)
  {
    hide Sound, Turn;
    if b == [] {
      assert a + b == a;
    } else {
      var k := |b| - 1;
      RunThen(m, a, b[..k], commands);
      assert (a + b)[..|a| + k] == a + b[..k];
    }
  }

  lemma RunThree(m: Line, a: char, b: char, c: char, commands: seq<string>)
    requires Sound(m)
    ensures Run(m, [a, b, c], commands) == Turn(Turn(Turn(m, a, commands), b, commands), c, commands)
  {
    hide Sound, Pressed, Turn;
    assert [a, b, c][..2] == [a, b];
    assert [a, b][..1] == [a];
    assert Run(m, [a], commands) == Turn(m, a, commands);
  }

  lemma RefreshedEntries(text: string, recent: seq<string>, i: nat)
    requires i < |recent|
    ensures multiset(Refreshed(text, recent, i)) == multiset(recent) <==> text == recent[i]
    ensures |Refreshed(text, recent, i)| == |recent| && Refreshed(text, recent, i)[0] == text
    ensures forall j :: 0 <= j < i ==> Refreshed(text, recent, i)[j + 1] == recent[j]
    ensures forall j :: i < j < |recent| ==> Refreshed(text, recent, i)[j] == recent[j]
  {
    var q, rest := recent, multiset(recent[..i]) + multiset(recent[i + 1..]);
    assert q == q[..i] + [q[i]] + q[i + 1..];
    assert multiset(q) == rest + multiset{q[i]};
    var r := Refreshed(text, q, i);
    assert multiset(r) == rest + multiset{text};
    assert multiset(r)[text] == rest[text] + 1;
  }

  /** What ENTER does to the history.  A newly typed line is put in front and the ten newest are kept.  A recalled
      line moves to the front, and the entries remain the same ones exactly if it is entered as it was
      recalled: deleting from it counts neither as typing nor as a new line. */
  lemma EnterRemembers(m: Line, commands: seq<string>)
    requires Sound(m)
    ensures var r := Entered(m, commands);
            && (Text(m) == [] ==> r.recent == m.recent)
            && (Text(m) != [] && m.typed ==>
                  r.recent == ([Text(m)] + m.recent)[..if |m.recent| < 10 then |m.recent| + 1 else 10])
            && (Text(m) != [] && !m.typed ==>
                  && r.recent[0] == Text(m) && |r.recent| == |m.recent|
                  && (forall j :: 0 <= j < m.idx ==> r.recent[j + 1] == m.recent[j])
                  && (forall j :: m.idx < j < |m.recent| ==> r.recent[j] == m.recent[j])
                  && (multiset(r.recent) == multiset(m.recent) <==> Text(m) == m.recent[m.idx]))
            && (!m.touched ==> multiset(r.recent) == multiset(m.recent))
  {
    hide Sound, Word, Match, Refreshed;
    SoundHistory(m);
    if Text(m) != [] && !m.typed {
      RefreshedEntries(Text(m), m.recent, m.idx);
    }
  }

  lemma SoundHistory(m: Line)
    requires Sound(m)
    ensures |m.recent| <= 10
    ensures Text(m) != [] && !m.typed ==> 0 <= m.idx < |m.recent|
    ensures Text(m) != [] && !m.touched ==> !m.typed && Text(m) == m.recent[m.idx]
  {}

  function Ups(n: nat): string { if n == 0 then [] else Ups(n - 1) + [ESC, '[', 'A'] }

  lemma PressUp(m: Line, commands: seq<string>)
    requires Sound(m) && m.keys == 0
    ensures Run(m, [ESC, '[', 'A'], commands) == Recalled(m, m.idx + 1).(waiting := None)
  {
    hide Sound;
    PressArrow(m, 'A', commands);
  }

  /** From an empty line, pressing UP n times shows the n-th line entered before, or the oldest one kept. */
  lemma {:induction false} UpsReach(m: Line, n: nat, commands: seq<string>)
    requires Sound(m) && m.idx == -1 && m.keys == 0 && m.recent != [] && n > 0
    ensures var r := Run(m, Ups(n), commands);
            && r.idx == (if n < |m.recent| then n else |m.recent|) - 1 && r.recent == m.recent && r.keys == 0
            && Text(r) == m.recent[r.idx] && !r.touched && !r.typed
  {
    hide Sound;
    RunThen(m, Ups(n - 1), [ESC, '[', 'A'], commands);
    var r := Run(m, Ups(n - 1), commands);
    if n > 1 {
      UpsReach(m, n - 1, commands);
    }
    PressUp(r, commands);
  }

  lemma {:induction false} Typing(m: Line, text: string, commands: seq<string>)
    requires Sound(m) && m.keys == 0 && m.after == [] && AllPrintable(text) && |m.before| + |text| <= MAX_TEXT
    ensures var r := Run(m, text, commands);
            r.before == m.before + text && r.after == [] && r.keys == 0 && r.recent == m.recent && (text != [] ==> r.typed)
  {
    hide Sound, Entered, Arrow;
    if text != [] {
      var k := |text| - 1;
      Typing(m, text[..k], commands);
      assert m.before + text == m.before + text[..k] + [text[k]];
    } else {
      assert m.before + text == m.before;
    }
  }

  /** A line typed and entered is what UP brings back. */
  lemma EnteredComesBack(m: Line, text: string, commands: seq<string>)
    requires Sound(m) && m.keys == 0 && Text(m) == [] && 0 < |text| <= MAX_TEXT && AllPrintable(text)
    ensures Text(Run(m, text + [CR] + Ups(1), commands)) == text
  {
    hide Sound;
    Typing(m, text, commands);
    var typed := Run(m, text, commands);
    assert Text(typed) == text;
    assert (text + [CR])[..|text|] == text;
    var entered := Run(m, text + [CR], commands);
    assert entered == Entered(typed, commands).(waiting := None);
    assert entered.recent[0] == text;
    UpsReach(entered, 1, commands);
    RunThen(m, text + [CR], Ups(1), commands);
  }

  // ---- editing -----------------------------------------------------------------------------

  /** An arrow key pressed n times. */
  function Presses(c: char, n: nat): string { if n == 0 then [] else Presses(c, n - 1) + "\U{001B}[" + [c] }

  lemma OnePress(c: char, n: nat)
    requires n > 0
    ensures Presses(c, n) == Presses(c, n - 1) + [ESC, '[', c]
  {
    assert "\U{001B}[" + [c] == [ESC, '[', c];
  }

  lemma PressArrow(m: Line, c: char, commands: seq<string>)
    requires Sound(m) && m.keys == 0
    ensures Run(m, [ESC, '[', c], commands) == Arrow(m, c).(keys := 0, waiting := None)
  {
    hide Sound, Arrow, Entered;
    RunThree(m, ESC, '[', c, commands);
    var at := Turn(Turn(m, ESC, commands), '[', commands);
    assert at == m.(keys := 2, waiting := None);
    ArrowOnly(m, c);
  }

  lemma ArrowOnly(m: Line, c: char)
    ensures Arrow(m.(keys := 2, waiting := None), c).(keys := 0, waiting := None) ==
            Arrow(m, c).(keys := 0, waiting := None)
  {}

  lemma OneMove(m: Line, right: bool)
    ensures var r := Arrow(m, if right then 'C' else 'D');
            && Text(r) == Text(m) && r.recent == m.recent && r.typed == m.typed && r.idx == m.idx
            && |r.before| == if right then (if |m.before| < |Text(m)| then |m.before| + 1 else |m.before|)
                             else if |m.before| > 0 then |m.before| - 1 else 0
  {}

  /** LEFT moves the cursor towards the start of the line, RIGHT towards its end, and neither changes the text. */
  lemma {:induction false} CursorMoves(m: Line, right: bool, n: nat, commands: seq<string>)
    requires Sound(m) && m.keys == 0
    ensures var r := Run(m, Presses(if right then 'C' else 'D', n), commands);
            && Text(r) == Text(m) && r.keys == 0 && r.recent == m.recent && r.typed == m.typed && r.idx == m.idx
            && |r.before| == if right then (if |m.before| + n < |Text(m)| then |m.before| + n else |Text(m)|)
                             else if n < |m.before| then |m.before| - n else 0
  {
    hide Sound, Arrow, Turn;
    if n > 0 {
      var c := if right then 'C' else 'D';
      CursorMoves(m, right, n - 1, commands);
      OnePress(c, n);
      RunThen(m, Presses(c, n - 1), [ESC, '[', c], commands);
      var r := Run(m, Presses(c, n - 1), commands);
      PressArrow(r, c, commands);
      OneMove(r, right);
    }
  }

  /** The text as far as the cursor, and the text behind it. */
  lemma AtCursor(m: Line)
    ensures m.before == Text(m)[..|m.before|] && m.after == Text(m)[|m.before|..]
  {}

  /** A text typed into an empty line, the cursor moved n to the left and then k to the right. */
  ghost function Edited(m: Line, text: string, n: nat, k: nat, commands: seq<string>): Line
    requires Sound(m)
  {
    Run(Run(Run(m, text, commands), Presses('D', n), commands), Presses('C', k), commands)
  }

  lemma EditedIs(m: Line, text: string, n: nat, k: nat, commands: seq<string>)
    requires Sound(m) && m.keys == 0 && Text(m) == [] && AllPrintable(text) && |text| <= 48 && k <= n <= |text|
    ensures var r, at := Edited(m, text, n, k, commands), |text| - n + k;
            && r.before == text[..at] && r.after == text[at..] && r.keys == 0 && Sound(r)
  {
    hide Sound;
    Typing(m, text, commands);
    var a := Run(m, text, commands);
    assert Text(a) == text;
    CursorMoves(a, false, n, commands);
    var b := Run(a, Presses('D', n), commands);
    CursorMoves(b, true, k, commands);
    AtCursor(Edited(m, text, n, k, commands));
  }

  /** A character typed then goes in at the cursor, and the delete key takes out the one in front of it. */
  lemma EditsInPlace(m: Line, text: string, n: nat, k: nat, c: char, commands: seq<string>)
    requires Sound(m) && m.keys == 0 && Text(m) == [] && AllPrintable(text) && |text| < 48 && k <= n <= |text| && ' ' <= c <= '~'
    ensures var r, at := Edited(m, text, n, k, commands), |text| - n + k;
            && Text(Run(r, [c], commands)) == text[..at] + [c] + text[at..]
            && Text(Run(r, "\U{007F}", commands)) == if at == 0 then text else text[..at - 1] + text[at..]
  {
    hide Sound, Turn, Run, Edited;
    EditedIs(m, text, n, k, commands);
    var r := Edited(m, text, n, k, commands);
    TypedKey(r, c, commands);
    DeleteKey(r, commands);
  }

  lemma OneKey(m: Line, c: char, commands: seq<string>)
    requires Sound(m)
    ensures Run(m, [c], commands) == Turn(m, c, commands)
  {
    hide Sound, Turn;
    assert [c][..0] == [];
  }

  lemma TypedKey(m: Line, c: char, commands: seq<string>)
    requires Sound(m) && m.keys == 0 && Printable(c) && |m.before| + |m.after| < 48
    ensures Text(Run(m, [c], commands)) == m.before + [c] + m.after && Run(m, [c], commands).typed
  {
    hide Sound, Entered, Run;
    OneKey(m, c, commands);
  }

  lemma DeleteKey(m: Line, commands: seq<string>)
    requires Sound(m) && m.keys == 0
    ensures var n := |m.before|;
            && Text(Run(m, [DEL], commands)) == (if n == 0 then m.after else m.before[..n - 1] + m.after)
            && Run(m, [DEL], commands).typed == m.typed
  {
    hide Sound, Entered, Run;
    OneKey(m, DEL, commands);
  }

  /** A line holds 48 characters; what is typed behind them is not taken. */
  lemma {:induction false} TypingEnds(m: Line, text: string, commands: seq<string>)
    requires Sound(m) && m.keys == 0 && Text(m) == [] && AllPrintable(text)
    ensures var r := Run(m, text, commands);
            Text(r) == (if |text| <= 48 then text else text[..48]) && r.keys == 0 && r.after == []
  {
    hide Sound, Entered, Arrow;
    if |text| <= 48 {
      Typing(m, text, commands);
    } else {
      var k := |text| - 1;
      TypingEnds(m, text[..k], commands);
      assert text[..k][..48] == text[..48];
    }
  }

  /** DOWN goes back towards the newer lines, and stays at the newest. */
  lemma {:induction false} DownsReach(m: Line, n: nat, k: nat, commands: seq<string>)
    requires Sound(m) && m.idx == -1 && m.keys == 0 && 0 < n <= |m.recent|
    ensures var r := Run(Run(m, Ups(n), commands), Presses('B', k), commands);
            && r.idx == (if k < n then n - 1 - k else 0) && r.recent == m.recent && r.keys == 0
            && Text(r) == m.recent[r.idx]
  {
    hide Sound, Arrow, Turn;
    UpsReach(m, n, commands);
    var a := Run(m, Ups(n), commands);
    if k > 0 {
      DownsReach(m, n, k - 1, commands);
      OnePress('B', k);
      RunThen(a, Presses('B', k - 1), [ESC, '[', 'B'], commands);
      var b := Run(a, Presses('B', k - 1), commands);
      PressArrow(b, 'B', commands);
      OneDown(b);
    }
  }

  lemma OneDown(m: Line)
    requires 0 <= m.idx < |m.recent|
    ensures var r := Arrow(m, 'B');
            r.idx == (if m.idx > 0 then m.idx - 1 else 0) && r.recent == m.recent && Text(r) == m.recent[r.idx]
  {}

  /** ENTER on a text whose first word is w chooses the first command that begins with w. */
  lemma CommandChosen(m: Line, w: string, rest: string, commands: seq<string>, k: nat)
    requires Sound(m) && m.keys == 0 && Text(m) == [] && AllPrintable(w + rest) && |w + rest| <= 48
    requires w != [] && ' ' !in w && (rest == [] || rest[0] == ' ') && k < |commands|
    ensures var r := Pressed(Run(m, w + rest, commands), '\r', commands);
            && (r.waiting == Some(k) <==> w <= commands[k] && forall j :: 0 <= j < k ==> !(w <= commands[j]))
            && (r.waiting == None <==> forall j :: 0 <= j < |commands| ==> !(w <= commands[j]))
            && Text(r) == []
  {
    hide Sound, Run, Pressed, Word, Match;
    Typing(m, w + rest, commands);
    var a := Run(m, w + rest, commands);
    assert Text(a) == w + rest;
    FirstWord(w, rest);
    EnterChooses(a, commands);
    MatchIs(commands, w, k);
  }

  lemma MatchIs(commands: seq<string>, w: string, k: nat)
    requires k < |commands|
    ensures Match(commands, w, 0) == Some(k) <==> w <= commands[k] && forall j :: 0 <= j < k ==> !(w <= commands[j])
    ensures Match(commands, w, 0) == None <==> forall j :: 0 <= j < |commands| ==> !(w <= commands[j])
  {
    hide Match;
    var choice := Match(commands, w, 0);
    if choice.Some? {
      assert w <= commands[choice.value];
    }
  }

  lemma EnterChooses(m: Line, commands: seq<string>)
    requires Sound(m) && m.keys == 0 && Word(Text(m)) != []
    ensures var r := Pressed(m, CR, commands); r.waiting == Match(commands, Word(Text(m)), 0) && Text(r) == []
  {
    hide Sound, Word, Match, Saved;
  }

  lemma {:induction false} FirstWord(w: string, rest: string)
    requires ' ' !in w && (rest == [] || rest[0] == ' ')
    ensures Word(w + rest) == w
  {
    if w != [] {
      assert (w + rest)[1..] == w[1..] + rest;
      FirstWord(w[1..], rest);
      assert w == [w[0]] + w[1..];
    } else {
      assert w + rest == rest;
    }
  }
}
