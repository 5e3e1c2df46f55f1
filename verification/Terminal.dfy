/** The line editor's terminal (terminal.go: Terminal): the line is edited in place in a growing buffer, and what is sent
    to the terminal keeps the screen in step with it, on terminals whose line feed returns to column 0 always, and on
    others for as long as no output comes to the end of a row. outBuf holds all output ever queued; sending it is not
    part of this model. */
module Terminals {
  import opened Results
  import opened Screens
  import Editor
  import History

  /** Runes inside an escape sequence are not visible. */
  function Visible(runes: string, inEscapeSeq: bool): nat {
    if runes == [] then 0
    else if inEscapeSeq then Visible(runes[1..], !('a' <= runes[0] <= 'z' || 'A' <= runes[0] <= 'Z'))
    else if runes[0] == ESC then Visible(runes[1..], true)
    else 1 + Visible(runes[1..], false)
  }

  lemma {:induction false} VisibleGlyphs(t: string)
    requires Glyphs(t)
    ensures Visible(t, false) == |t|
  {
    if t != [] {
      VisibleGlyphs(t[1..]);
    }
  }

  method VisualLength(runes: string) returns (length: nat)
    ensures length == Visible(runes, false)
    ensures Glyphs(runes) ==> length == |runes|
  {
    length := 0;
    var inEscapeSeq := false;
    for i := 0 to |runes|
      invariant Visible(runes, false) == length + Visible(runes[i..], inEscapeSeq)
    {
      assert runes[i..][0] == runes[i] && runes[i..][1..] == runes[i + 1..];
      var r := runes[i];
      if inEscapeSeq {
        if 'a' <= r <= 'z' || 'A' <= r <= 'Z' {
          inEscapeSeq := false;
        }
      } else if r == ESC {
        inEscapeSeq := true;
      } else {
        length := length + 1;
      }
    }
    if Glyphs(runes) {
      VisibleGlyphs(runes);
    }
  }

  lemma Division(a: nat, w: nat)
    requires w > 0
    ensures a == (a / w) * w + a % w && a % w < w
  {
  }

  lemma Carried(w: nat, y: nat, x: nat)
    requires w > 0
    ensures x % w < w && (y + x / w) * w + x % w == y * w + x && (y * w + x) % w == x % w
  {
    Division(x, w);
    assert (y + x / w) * w == y * w + (x / w) * w;
    InRow(w, y + x / w, x % w);
  }

  lemma PlayOne(w: nat, crlf: bool, s: Screen, c: char)
    requires w > 0
    ensures Play(w, crlf, s, [c]) == Feed(w, crlf, s, c)
  {
    assert [c][..0] == [];
  }

  function Longer(a: nat, b: nat): nat {
    if a > b then a else b
  }

  /** eraseNPreviousChars writes the rest of the line one row at a time and n spaces in one go. */
  predicate EraseStops(w: nat, at: nat, rest: nat, n: nat)
    requires w > 0
  {
    Crosses(w, at, rest) || Stops(w, at + rest, n)
  }

  /** With echo on, the key makes the terminal write up to the end of a row. */
  predicate KeyStops(w: nat, p: nat, s: Editor.State, log: seq<string>, key: Editor.Key)
    requires w > 0 && s.index >= -1
  {
    var (b, a, s') := (|s.before|, |s.after|, Editor.Press(s, log, key).0);
    match key
    case Backspace => b > 0 && EraseStops(w, p + b - 1, a, 1)
    case DeleteWord => b > 0 && EraseStops(w, p + |s'.before|, a, b - |s'.before|)
    case CtrlU => b > 0 && EraseStops(w, p, a, b)
    case CtrlD => a > 0 && EraseStops(w, p + b, a - 1, 1)
    case DeleteLine => Crosses(w, p + b, a)
    case Up => s' != s && Crosses(w, p, Longer(|Editor.Text(s')|, b + a))
    case Down => s' != s && Crosses(w, p, Longer(|Editor.Text(s')|, b + a))
    case ClearScreen => Stops(w, 0, p) || Crosses(w, p, b + a)
    case Rune(c) => s' != s && Crosses(w, p + b, 1 + a)
    case _ => false
  }

  /** With a line feed that keeps the column, and prompt and line within one row of several columns, the key leaves the
      screen wrong. */
  predicate KeyBreaks(w: nat, p: nat, s: Editor.State, log: seq<string>, key: Editor.Key)
    requires w > 0 && s.index >= -1
  {
    var s' := Editor.Press(s, log, key).0;
    match key
    case Up => s' != s && Crosses(w, p, |Editor.Text(s')|)
    case Down => s' != s && Crosses(w, p, |Editor.Text(s')|)
    case ClearScreen => p > 0 && p % w == 0 && !(w == 2 && Editor.Text(s) == " " && s.before == "")
    case Rune(c) => s' != s && Crosses(w, p, |Editor.Text(s')|) && |s.after| != 1
    case _ => false
  }

  /** From a line that stays in its row these are the only keys that make the output come to the end of a row. */
  lemma StopsMeans(w: nat, p: nat, s: Editor.State, log: seq<string>, key: Editor.Key)
    requires w > 0 && s.index >= -1 && !Crosses(w, p, |Editor.Text(s)|)
    ensures KeyStops(w, p, s, log, key) || KeyBreaks(w, p, s, log, key) ==>
              key == Editor.Up || key == Editor.Down || key == Editor.ClearScreen || key.Rune?
    ensures key == Editor.Up || key == Editor.Down ==> (KeyStops(w, p, s, log, key) <==> KeyBreaks(w, p, s, log, key))
    ensures key == Editor.ClearScreen ==> (KeyStops(w, p, s, log, key) <==> p > 0 && p % w == 0)
    ensures key.Rune? ==> (KeyBreaks(w, p, s, log, key) <==> KeyStops(w, p, s, log, key) && |s.after| != 1)
  {
    hide Crosses, Stops, Editor.WordStart, Editor.UpKey, Editor.DownKey;
    var (b, a, s') := (|s.before|, |s.after|, Editor.Press(s, log, key).0);
    match key {
      case Backspace => if b > 0 { Within(w, p, b + a, b - 1, a, 1); }
      case DeleteWord => if b > 0 { Within(w, p, b + a, |s'.before|, a, b - |s'.before|); }
      case CtrlU => if b > 0 { Within(w, p, b + a, 0, a, b); }
      case CtrlD => if a > 0 { Within(w, p, b + a, b, a - 1, 1); }
      case DeleteLine => Within(w, p, b + a, b, a, 0);
      case Up => LongerCrosses(w, p, |Editor.Text(s')|, b + a);
      case Down => LongerCrosses(w, p, |Editor.Text(s')|, b + a);
      case ClearScreen => StopsAt(w, p);
      case Rune(c) => FillsIff(w, p, b + a, b);
      case _ =>
    }
  }

  lemma StopsAt(w: nat, p: nat)
    requires w > 0
    ensures Stops(w, 0, p) <==> p > 0 && p % w == 0
  {
  }

  lemma LongerCrosses(w: nat, p: nat, n: nat, m: nat)
    requires w > 0 && !Crosses(w, p, m)
    ensures Crosses(w, p, Longer(n, m)) <==> Crosses(w, p, n)
  {
    hide Crosses;
    if n <= m {
      CrossesLess(w, p, m, n);
    }
  }

  /** What is written within the line, and n spaces that end where the line ends, do not come to the end of its row. */
  lemma Within(w: nat, p: nat, len: nat, at: nat, rest: nat, n: nat)
    requires w > 0 && !Crosses(w, p, len) && at + rest + n == len
    ensures !EraseStops(w, p + at, rest, n)
  {
    hide Crosses, Stops;
    CrossesMore(w, p, at, rest + n);
    CrossesMore(w, p + at, rest, n);
    var (y, x) := (p / w, p % w);
    assert p == y * w + x;
    CrossesAt(w, y, x, len);
    assert p + at + rest == y * w + (x + at + rest);
    CrossesAt(w, y, x + at + rest, n);
    InRow(w, 0, x + len);
  }

  type Width = w: nat | w > 0 witness 1

  class Terminal {
    const width: Width
    const prompt: string
    const history: History.StRingBuffer
    const echo: bool

    var line: array<char>
    var len: nat
    var pos: nat
    var cursorX: nat
    var cursorY: nat
    var maxLine: nat
    var outBuf: string
    var historyIndex: int
    var historyPending: string

    /** Whether the attached terminal's line feed also returns to column 0. */
    ghost const crlf: bool
    /** The screen from the start of the line on, which the output from place begun on has drawn. */
    ghost var scr: Screen
    ghost var begun: nat
    /** The cursor is known to be where cursorX and cursorY say: nothing has gone wrong at the end of a row. */
    ghost var clean: bool

    function Line(): string
      requires len <= line.Length
      reads this, line
    {
      line[..len]
    }

    ghost predicate Drawn()
      reads `cursorX, `outBuf, `begun, `scr
    {
      && Glyphs(prompt) && cursorX < width && scr.esc == Text
      && begun <= |outBuf| && scr == Play(width, crlf, Blank(), outBuf[begun..])
    }

    /** The line feed that advanceCursor sends at the end of a row does what it is sent for. */
    ghost predicate Safe() {
      crlf || width == 1
    }

    /** The cell that cursorX and cursorY stand for. */
    ghost function Cell(): nat
      reads `cursorX, `cursorY
    {
      cursorY * width + cursorX
    }

    /** The cursor is there. */
    ghost predicate Tracks()
      reads `cursorX, `cursorY, `scr
    {
      scr.esc == Text && !scr.pending && scr.p == Cell()
    }

    ghost predicate Live()
      reads `clean
    {
      echo && clean
    }

    ghost predicate LineOk()
      reads `line, line, `len, `pos, `historyIndex, `historyPending
    {
      && pos <= len <= line.Length && Glyphs(line[..len]) && Glyphs(historyPending) && -1 <= historyIndex
    }

    ghost predicate HistoryOk()
      reads this, history, history.entries
    {
      history.Valid() && forall e | e in history.log :: Glyphs(e)
    }

    ghost predicate Valid()
      reads this, line
    {
      Drawn() && LineOk()
    }

    /** The screen shows prompt and line and nothing else, and the cursor stands on the character at pos. */
    ghost predicate Displayed()
      requires len <= line.Length
      reads this, line
    {
      Tracks() && scr.p == |prompt| + pos && Shows(scr.cells, prompt + Line())
    }

    /** Where the ends of rows matter and nothing has gone wrong, the line stays in the row in which it begins. */
    ghost predicate Fits()
      reads `clean, `len
    {
      Live() && !Safe() ==> !Crosses(width, |prompt|, len)
    }

    /** With echo on cursorX and cursorY are the place of the cursor in the text, whatever the terminal does, and the
        screen is right for as long as nothing has gone wrong. */
    ghost predicate Shown()
      requires len <= line.Length
      reads this, line
    {
      (echo ==> Cell() == |prompt| + pos && (clean ==> Displayed())) && Fits()
    }

    /** What the editor's user edits. */
    ghost function Edited(): Editor.State
      requires pos <= len <= line.Length
      reads this, line
    {
      Editor.State(line[..pos], line[pos..len], historyIndex, historyPending)
    }

    constructor (width: nat, prompt: string, history: History.StRingBuffer, echo: bool, ghost crlf: bool)
      requires width > 0 && Glyphs(prompt)
      ensures Valid() && Tracks() && clean && Cell() == 0 && scr == Blank() && Edited() == Editor.State("", "", -1, "")
      ensures this.width == width && this.prompt == prompt && this.history == history && this.echo == echo && fresh(line)
      ensures this.crlf == crlf
    {
      this.width, this.prompt, this.history, this.echo := width, prompt, history, echo;
      line := new char[0];
      len, pos, cursorX, cursorY, maxLine, outBuf := 0, 0, 0, 0, 0, "";
      historyIndex, historyPending := -1, "";
      this.crlf, scr, begun, clean := crlf, Blank(), 0, true;
    }

    // ----- output -----

    method Queue(data: string)
      requires Drawn() && Play(width, crlf, scr, data).esc == Text
      modifies `outBuf, `scr
      ensures Drawn() && outBuf == old(outBuf) + data && scr == Play(width, crlf, old(scr), data)
    {
      PlayConcat(width, crlf, Blank(), outBuf[begun..], data);
      assert (outBuf + data)[begun..] == outBuf[begun..] + data;
      outBuf := outBuf + data;
      scr := Play(width, crlf, scr, data);
    }

    /** Text, which follows what is there. */
    method QueueText(t: string)
      requires Drawn() && Glyphs(t)
      modifies `outBuf, `scr
      ensures Drawn() && Next(scr) == Next(old(scr)) + |t| && scr.cells == Overlay(old(scr.cells), Next(old(scr)), t)
      ensures scr.pending == if t == [] then old(scr).pending else Next(scr) % width == 0
      ensures scr == Play(width, crlf, old(scr), t)
    {
      hide Play, Overlay;
      PlayText(width, crlf, scr, t);
      Queue(t);
    }

    method Move(up: nat, down: nat, left: nat, right: nat)
      requires Drawn()
      modifies `outBuf, `scr
      ensures Drawn() && scr == Play(width, crlf, old(scr), Moves(up, down, left, right))
    {
      MovesAreWhole(width, crlf, scr, up, down, left, right);
      Queue(Moves(up, down, left, right));
    }

    /** Whatever the terminal has done, cursorX and cursorY are right for the text; the cursor itself is if it was before. */
    method MoveCursorToPos(to: nat)
      requires Drawn() && (Live() ==> Tracks())
      modifies `outBuf, `scr, `cursorX, `cursorY
      ensures Drawn() && (echo ==> Cell() == |prompt| + to)
      ensures Live() ==> Tracks() && scr == old(scr).(p := |prompt| + to)
      ensures echo ==> scr == Play(width, crlf, old(scr), Path(width, old(Cell()), |prompt| + to))
      ensures echo && old(Cell()) == |prompt| + to ==> scr == old(scr)
      ensures !echo ==> unchanged(this)
    {
      hide Play, Moves, Visible, Path, Shows;
      if !echo {
        return;
      }
      var x := VisualLength(prompt);
      x := x + to;
      PathFrom(width, crlf, scr, cursorY, cursorX, x);
      MoveTo(x / width, x % width);
    }

    lemma PathFrom(w: nat, crlf: bool, s: Screen, y: nat, x: nat, to: nat)
      requires x < w && s.esc == Text
      ensures to % w < w && (to / w) * w + to % w == to
      ensures Path(w, y * w + x, to) == Moves(Excess(y, to / w), Excess(to / w, y), Excess(x, to % w), Excess(to % w, x))
      ensures y * w + x == to ==> Play(w, crlf, s, Path(w, y * w + x, to)) == s
    {
      hide Play, Moves;
      Division(to, w);
      InRow(w, y, x);
      if y * w + x == to {
        MovesAreWhole(w, crlf, s, 0, 0, 0, 0);
      }
    }

    /** From where the cursor is to row y and column x. */
    method MoveTo(y: nat, x: nat)
      requires Drawn() && (Live() ==> Tracks()) && x < width
      modifies `outBuf, `scr, `cursorX, `cursorY
      ensures Drawn() && cursorY == y && cursorX == x
      ensures Live() ==> Tracks() && scr == old(scr).(p := y * width + x)
      ensures var (Y, X) := (old(cursorY), old(cursorX));
              scr == Play(width, crlf, old(scr), Moves(Excess(Y, y), Excess(y, Y), Excess(X, x), Excess(x, X)))
    {
      hide Play, Moves;
      if Live() {
        MovesTo(width, crlf, scr, cursorY, cursorX, y, x);
      }
      var up := if y < cursorY then cursorY - y else 0;
      var down := if y > cursorY then y - cursorY else 0;
      var left := if x < cursorX then cursorX - x else 0;
      var right := if x > cursorX then x - cursorX else 0;
      cursorX, cursorY := x, y;
      Move(up, down, left, right);
    }

    /** The screen after places glyphs from the cursor on. */
    ghost predicate Written(places: nat)
      reads this
    {
      scr.esc == Text && Next(scr) == Cell() + places && scr.pending == (places > 0 && Next(scr) % width == 0)
    }

    /** Or further on than it should be. */
    ghost predicate Ahead(places: nat)
      reads this
    {
      scr.esc == Text && Next(scr) > Cell() + places
    }

    /** Accounts for glyphs just written. At the end of a row it sends a line feed, after which the cursor is in its place
        if and only if the line feed returns to column 0 or there is no other column. */
    method AdvanceCursor(places: nat)
      requires Drawn() && (Live() ==> Written(places))
      modifies `outBuf, `scr, `cursorX, `cursorY, `maxLine, `clean
      ensures Drawn() && Cell() == old(Cell()) + places
      ensures clean == (old(clean) && (Safe() || !Stops(width, old(Cell()), places)))
      ensures Live() ==> Tracks() && scr == old(scr).(p := Next(old(scr)), pending := false)
      ensures old(Live()) && !clean ==> Ahead(0) && !Tracks() && scr == Screen(old(scr).cells, Cell() - 1 + width, false, Text)
      ensures !Stops(width, old(Cell()), places) ==> scr == old(scr)
      ensures old(Ahead(places)) ==> Ahead(0)
      ensures cursorX == (old(cursorX) + places) % width
    {
      hide Play, Cell;
      Account(places);
      if places > 0 && cursorX == 0 {
        EndRow();
      }
    }

    lemma Accounted(w: nat, y: nat, x: nat, n: nat)
      requires x < w
      ensures (x + n) % w < w && (y + (x + n) / w) * w + (x + n) % w == y * w + x + n
      ensures (x + n) % w == 0 && n > 0 <==> Stops(w, y * w + x, n)
    {
      hide Stops;
      Carried(w, y, x + n);
      CrossesAt(w, y, x, n);
    }

    /** The arithmetic of advanceCursor. */
    method Account(places: nat)
      requires cursorX < width
      modifies `cursorX, `cursorY, `maxLine
      ensures Cell() == old(Cell()) + places && cursorX == (old(cursorX) + places) % width < width
      ensures cursorX == 0 && places > 0 <==> Stops(width, old(Cell()), places)
    {
      hide Stops;
      Accounted(width, cursorY, cursorX, places);
      cursorX := cursorX + places;
      cursorY := cursorY + cursorX / width;
      if cursorY > maxLine {
        maxLine := cursorY;
      }
      cursorX := cursorX % width;
    }

    /** And its line feed. */
    method EndRow()
      requires Drawn() && (Live() ==> scr == Before(scr.cells, Cell(), true) && Cell() > 0 && Cell() % width == 0)
      modifies `outBuf, `scr, `clean
      ensures Drawn() && clean == (old(clean) && Safe()) && Next(scr) >= Next(old(scr))
      ensures old(Live()) ==> scr == Screen(old(scr).cells, if crlf then Cell() else Cell() - 1 + width, false, Text)
    {
      hide Play, Cell;
      PlayOne(width, crlf, scr, '\n');
      if Live() {
        LineFeed(width, crlf, scr.cells, Cell());
      }
      FeedsOn(width, crlf, scr);
      Queue("\n");
      clean := clean && Safe();
    }

    /** A line feed does not take the cursor back. */
    lemma FeedsOn(w: nat, crlf: bool, s: Screen)
      requires w > 0 && s.esc == Text
      ensures Next(Feed(w, crlf, s, '\n')) >= Next(s) && Feed(w, crlf, s, '\n').esc == Text
    {
      Division(s.p, w);
    }

    lemma RowEnd(w: nat, y: nat, x: nat, n: nat)
      requires x < w && 0 < n <= w - x
      ensures Stops(w, y * w + x, n) <==> x + n == w
      ensures (x + n) % w == if x + n == w then 0 else x + n
    {
      hide Stops, Crosses;
      CrossesAt(w, y, x, n);
      Wraps(w, x + n);
    }

    lemma Wraps(w: nat, k: nat)
      requires 0 < k <= w
      ensures k % w == if k == w then 0 else k
    {
    }

    /** One round of writeLine: text that does not go beyond the row. */
    method WritePart(part: string)
      requires Drawn() && Glyphs(part) && 0 < |part| <= width - cursorX && (Live() ==> Tracks())
      modifies `outBuf, `scr, `cursorX, `cursorY, `maxLine, `clean
      ensures Drawn() && Cell() == old(Cell()) + |part|
      ensures cursorX == if old(cursorX) + |part| == width then 0 else old(cursorX) + |part|
      ensures clean == (old(clean) && (Safe() || old(cursorX) + |part| < width))
      ensures Live() ==> Tracks() && scr.cells == Overlay(old(scr.cells), old(scr.p), part)
      ensures old(Live()) && !clean ==>
                Ahead(0) && !Tracks() && scr == Screen(Overlay(old(scr.cells), old(scr.p), part), Cell() - 1 + width, false, Text)
      ensures old(Ahead(0)) ==> Ahead(0)
      ensures old(cursorX) + |part| < width ==> scr == Play(width, crlf, old(scr), part)
    {
      hide Play, Overlay, Stops, Glyphs, Visible;
      RowEnd(width, cursorY, cursorX, |part|);
      QueueText(part);
      var n := VisualLength(part);
      AdvanceCursor(n);
    }

    /** Writes text from the cursor on, one row at a time; on a terminal whose line feed keeps the column the cursor is
        in its place afterwards if and only if the text does not come to the end of a row. */
    method WriteLine(text: string)
      requires Drawn() && Glyphs(text) && (Live() ==> Tracks())
      modifies `outBuf, `scr, `cursorX, `cursorY, `maxLine, `clean
      ensures Drawn() && Cell() == old(Cell()) + |text|
      ensures clean == (old(clean) && (Safe() || !Crosses(width, old(Cell()), |text|)))
      ensures Live() ==> Tracks() && scr.cells == Overlay(old(scr.cells), old(scr.p), text)
      ensures old(Live()) ==> (Tracks() <==> Safe() || !Crosses(width, old(Cell()), |text|))
      ensures old(Live()) && !clean && Fills(width, old(Cell()), |text|) ==>
                scr == Screen(Overlay(old(scr.cells), old(scr.p), text), Cell() - 1 + width, false, Text)
      ensures old(Cell()) % width + |text| < width ==> scr == Play(width, crlf, old(scr), text)
    {
      hide Play, Overlay, Crosses, Stops;
      var done := 0;
      OverlayNothing(scr.cells, scr.p);
      PlayNothing(width, crlf, scr);
      ghost var x := cursorX;
      InRow(width, cursorY, cursorX);
      CrossesAt(width, cursorY, cursorX, |text|);
      while done < |text|
        invariant done <= |text| && Drawn() && Cell() == old(Cell()) + done
        invariant done == 0 || done == |text| || (cursorX == 0 && x + done >= width)
        invariant done == 0 ==> cursorX == x
        invariant clean == (old(clean) && (Safe() || x + done < width))
        invariant Live() ==> Tracks() && scr.cells == Overlay(old(scr.cells), old(scr.p), text[..done])
        invariant old(Live()) && !clean ==> Ahead(0) && !Tracks()
        invariant old(Live()) && !clean && x + |text| == width ==>
                    done == |text| && scr == Screen(Overlay(old(scr.cells), old(scr.p), text[..done]), Cell() - 1 + width, false, Text)
        invariant x + |text| < width ==> scr == Play(width, crlf, old(scr), text[..done]) && (done == 0 || done == |text|)
        invariant done == 0 ==> scr == old(scr) && clean == old(clean)
      {
        var remainingOnLine := width - cursorX;
        var todo := |text| - done;
        if todo > remainingOnLine {
          todo := remainingOnLine;
        }
        var part := text[done..done + todo];
        OverlayConcat(old(scr.cells), old(scr.p), text[..done], part);
        assert text[..done] + part == text[..done + todo];
        WritePart(part);
        done := done + todo;
      }
      assert text[..|text|] == text;
    }

    lemma OverlayNothing(cells: map<nat, char>, p: nat)
      ensures Overlay(cells, p, "") == cells
    {
    }

    /** The first lines of readLine: the prompt is written on a fresh line. */
    method ShowPrompt()
      requires Valid() && Cell() == len == 0 && (Live() ==> Tracks() && Shows(scr.cells, ""))
      modifies `outBuf, `scr, `cursorX, `cursorY, `maxLine, `clean
      ensures Valid() && Shown() && Edited() == old(Edited())
      ensures clean == (old(clean) && (Safe() || !Crosses(width, 0, |prompt|)))
    {
      hide Play, Overlay;
      ghost var cells := scr.cells;
      WriteLine(prompt);
      if Live() {
        Rewritten(cells, "", 0, prompt, 0);
        assert prompt + Spaces(0) == prompt && ""[..0] + prompt == prompt + Line();
      }
    }

    // ----- the line buffer, in place -----

    /** Makes room for one more character, doubling the buffer when it is full. */
    method Grow()
      requires len <= line.Length
      modifies `line
      ensures len < line.Length && (line == old(line) || fresh(line)) && Line() == old(Line())
    {
      if len == line.Length {
        var newLine := new char[2 * (1 + len)];
        for i := 0 to len
          invariant len == old(len) && line == old(line) && Line() == old(Line())
          invariant forall j | 0 <= j < i :: newLine[j] == line[j]
        {
          newLine[i] := line[i];
        }
        line := newLine;
      }
    }

    /** The part of addKeyToLine before the line is written out. */
    method Insert(key: char)
      requires pos <= len <= line.Length
      modifies `line, `len, line
      ensures pos < len == old(len) + 1 <= line.Length && (line == old(line) || fresh(line))
      ensures Line() == old(Line()[..pos]) + [key] + old(Line()[pos..])
    {
      ghost var was := Line();
      Grow();
      assert forall j | 0 <= j < len :: line[j] == was[j] by {
        assert Line() == was;
      }
      ShiftRight(was);
      line[pos] := key;
      len := len + 1;
      Assembled(Line(), was, pos, key);
    }

    lemma Assembled(t: string, was: string, at: nat, key: char)
      requires at <= |was| && |t| == |was| + 1 && t[at] == key
      requires forall j | 0 <= j < at :: t[j] == was[j]
      requires forall j | at <= j < |was| :: t[j + 1] == was[j]
      ensures t == was[..at] + [key] + was[at..]
    {
    }

    /** copy(line[pos+1:], line[pos:]) after the line has been made one longer. */
    method ShiftRight(ghost was: string)
      requires pos <= len == |was| < line.Length && forall j | 0 <= j < len :: line[j] == was[j]
      modifies line
      ensures forall j | 0 <= j < pos :: line[j] == was[j]
      ensures forall j | pos <= j < len :: line[j + 1] == was[j]
    {
      var i := len;
      while i > pos
        invariant pos <= i <= len
        invariant forall j | 0 <= j < i :: line[j] == was[j]
        invariant forall j | i <= j < len :: line[j + 1] == was[j]
      {
        i := i - 1;
        line[i + 1] := line[i];
      }
    }

    /** copy(line[at:], line[n+at:]) and the line made n shorter. */
    method Close(at: nat, n: nat)
      requires at + n <= len <= line.Length
      modifies `len, line
      ensures len == old(len) - n && Line() == old(Line()[..at]) + old(Line()[at + n..])
    {
      ghost var was := Line();
      for i := at to len - n
        invariant len == old(len)
        invariant forall j | 0 <= j < at :: line[j] == was[j]
        invariant forall j | at <= j < i :: line[j] == was[j + n]
        invariant forall j | i <= j < len :: line[j] == was[j]
      {
        line[i] := line[i + n];
      }
      len := len - n;
      Closed(Line(), was, at, n);
    }

    lemma Closed(t: string, was: string, at: nat, n: nat)
      requires at + n <= |was| && |t| == |was| - n
      requires forall j | 0 <= j < at :: t[j] == was[j]
      requires forall j | at <= j < |t| :: t[j] == was[j + n]
      ensures t == was[..at] + was[at + n..]
    {
    }

    // ----- keeping the screen in step -----

    /** Writes t over the shown text from place at of the line on, and pad spaces after it; the cursor stands at place at. */
    method Rewrite(ghost text: string, at: nat, t: string, pad: nat)
      requires Drawn() && Glyphs(t) && at <= |text| <= at + |t| + pad && Cell() == |prompt| + at
      requires Live() ==> Tracks() && Shows(scr.cells, prompt + text)
      modifies `outBuf, `scr, `cursorX, `cursorY, `maxLine, `clean
      ensures Drawn() && Cell() == |prompt| + at + |t| + pad
      ensures clean == (old(clean) && (Safe() || !Crosses(width, |prompt| + at, |t| + pad)))
      ensures Live() ==> Tracks() && Shows(scr.cells, prompt + text[..at] + t)
      ensures old(Live()) && !clean && pad == 0 ==> !Tracks()
      ensures pad == 0 && old(Cell()) % width + |t| < width ==> scr == Play(width, crlf, old(scr), t)
    {
      hide Play, Overlay, Crosses, Stops, Cell, Drawn, Visible, Glyphs, Fills;
      ghost var (cells, p) := (scr.cells, Cell());
      WriteLine(t);
      ghost var (scr1, clean1) := (scr, clean);
      var i := 0;
      assert t + Spaces(0) == t;
      assert Glyphs(" ") by { SpaceIsGlyph(); }
      while i < pad
        invariant i <= pad && Drawn() && Cell() == p + |t| + i
        invariant clean == (old(clean) && (Safe() || !Crosses(width, p, |t| + i)))
        invariant Live() ==> Tracks() && scr.cells == Overlay(cells, p, t + Spaces(i))
        invariant i == 0 ==> scr == scr1 && clean == clean1 && (old(Live()) && !clean ==> !Tracks())
      {
        OverlayConcat(cells, p, t + Spaces(i), " ");
        assert t + Spaces(i) + " " == t + Spaces(i + 1);
        CrossesMore(width, p, |t| + i, 1);
        CrossesNothing(width, p, |t| + i);
        WriteLine(" ");
        i := i + 1;
      }
      if Live() {
        Rewritten(cells, prompt + text, p, t, pad);
        assert (prompt + text)[..p] + t == prompt + text[..at] + t;
      }
    }

    lemma SpaceIsGlyph()
      ensures Glyphs(" ")
    {
    }

    lemma CrossesNothing(w: nat, a: nat, n: nat)
      requires w > 0
      ensures n == 0 ==> !Crosses(w, a, n)
    {
    }

    method QueueSpaces(n: nat)
      requires Drawn() && (Live() ==> Tracks())
      modifies `outBuf, `scr
      ensures Drawn() && (Live() ==> Written(n) && scr.cells == Overlay(old(scr.cells), old(scr.p), Spaces(n)))
    {
      hide Play, Overlay;
      ghost var (cells, p) := (scr.cells, scr.p);
      OverlayNothing(cells, p);
      assert Spaces(0) == "";
      for i := 0 to n
        invariant Drawn() && (Live() ==> Written(i) && scr.cells == Overlay(cells, p, Spaces(i)))
      {
        OverlayConcat(cells, p, Spaces(i), " ");
        assert Spaces(i) + " " == Spaces(i + 1);
        QueueText(" ");
      }
    }

    /** The output of eraseNPreviousChars: the rest of the line, then n spaces in one go. */
    method WriteOver(ghost text: string, at: nat, t: string, n: nat)
      requires Drawn() && Glyphs(t) && at <= |text| <= at + |t| + n && Cell() == |prompt| + at
      requires Live() ==> Tracks() && Shows(scr.cells, prompt + text)
      modifies `outBuf, `scr, `cursorX, `cursorY, `maxLine, `clean
      ensures Drawn() && Cell() == |prompt| + at + |t| + n
      ensures clean == (old(clean) && (Safe() || !(Crosses(width, |prompt| + at, |t|) || Stops(width, |prompt| + at + |t|, n))))
      ensures Live() ==> Tracks() && Shows(scr.cells, prompt + text[..at] + t)
    {
      hide Play, Overlay, Crosses, Stops;
      ghost var (cells, p) := (scr.cells, Cell());
      WriteLine(t);
      QueueSpaces(n);
      OverlayConcat(cells, p, t, Spaces(n));
      AdvanceCursor(n);
      if Live() {
        Rewritten(cells, prompt + text, p, t, n);
        assert (prompt + text)[..p] + t == prompt + text[..at] + t;
      }
    }

    /** The output of setLine. */
    method ShowLine(ghost shown: string, newLine: string, newPos: nat)
      requires Drawn() && |shown| <= len && Glyphs(newLine) && newPos <= |newLine| && echo
      requires Live() ==> Tracks() && Shows(scr.cells, prompt + shown)
      modifies `outBuf, `scr, `cursorX, `cursorY, `maxLine, `clean
      ensures Drawn() && Cell() == |prompt| + newPos
      ensures clean == (old(clean) && (Safe() || !Crosses(width, |prompt|, Longer(|newLine|, len))))
      ensures Live() ==> Tracks() && Shows(scr.cells, prompt + newLine)
      ensures old(Live()) && !clean && newPos == |newLine| >= len ==> !Tracks()
      ensures old(Cell()) == |prompt| && len <= |newLine| && |prompt| % width + |newLine| < width ==>
                scr == Play(width, crlf, Play(width, crlf, old(scr), newLine), Path(width, |prompt| + |newLine|, |prompt| + newPos))
    {
      hide Play, Overlay, Crosses, Cell, Path, Visible, Glyphs;
      MoveCursorToPos(0);
      Rewrite(shown, 0, newLine, if |newLine| < len then len - |newLine| else 0);
      assert prompt + shown[..0] + newLine == prompt + newLine;
      MoveCursorToPos(newPos);
    }

    /** setLine; shown is what the screen has after the prompt, which is the old line except after it has been cleared. */
    method SetLine(ghost shown: string, newLine: string, newPos: nat)
      requires Valid() && Glyphs(newLine) && newPos <= |newLine| && |shown| <= len
      requires Live() ==> Tracks() && Shows(scr.cells, prompt + shown)
      modifies `outBuf, `scr, `cursorX, `cursorY, `maxLine, `clean, `line, `len, `pos
      ensures Valid() && Shown() && Line() == newLine && pos == newPos && fresh(line)
      ensures clean == (old(clean) && (Safe() || !echo || !Crosses(width, |prompt|, Longer(|newLine|, old(len)))))
      ensures old(Live()) && !clean && newPos == |newLine| >= old(len) ==> !Tracks()
      ensures echo && old(Cell()) == |prompt| && old(len) <= |newLine| && |prompt| % width + |newLine| < width ==>
                scr == Play(width, crlf, Play(width, crlf, old(scr), newLine), Path(width, |prompt| + |newLine|, |prompt| + newPos))
    {
      hide Play, Overlay, Shows, Crosses, Cell, Path, Visible, Drawn;
      CrossesLess(width, |prompt|, Longer(|newLine|, len), |newLine|);
      if echo {
        ShowLine(shown, newLine, newPos);
      }
      line := new char[|newLine|](i requires 0 <= i < |newLine| => newLine[i]);
      len, pos := |newLine|, newPos;
      assert Line() == newLine;
    }

    method EraseNPreviousChars(count: nat)
      requires Valid() && Fits() && (Live() ==> Tracks() && Shows(scr.cells, prompt + Line()))
      requires count == 0 ==> Shown()
      modifies `outBuf, `scr, `cursorX, `cursorY, `maxLine, `clean, `len, `pos, line
      ensures Valid() && Shown()
      ensures var n := if old(pos) < count then old(pos) else count;
              pos == old(pos) - n && Line() == old(Line()[..pos - n]) + old(Line()[pos..])
      ensures clean == (old(clean) && (Safe() || !echo || count == 0 || !EraseStops(width, |prompt| + pos, len - pos, old(len) - len)))
    {
      hide Play, Overlay, Shows, EraseStops, Visible, Crosses, Stops, Cell, Drawn, Tracks, Path, Glyphs;
      if count == 0 {
        assert Line() == Line()[..pos] + Line()[pos..];
        return;
      }
      var n := if pos < count then pos else count;
      EraseHere(n);
    }

    /** The rest of it, for characters that are there; also for none, as at the start of the line. */
    method EraseHere(n: nat)
      requires Valid() && Fits() && n <= pos && (Live() ==> Tracks() && Shows(scr.cells, prompt + Line()))
      modifies `outBuf, `scr, `cursorX, `cursorY, `maxLine, `clean, `len, `pos, line
      ensures Valid() && Shown() && pos == old(pos) - n && len == old(len) - n
      ensures Line() == old(Line()[..pos - n]) + old(Line()[pos..])
      ensures clean == (old(clean) && (Safe() || !echo || !EraseStops(width, |prompt| + pos, len - pos, n)))
    {
      hide Play, Overlay, Shows, EraseStops, Visible, Crosses, Stops, Cell, Drawn, Tracks, Path, Glyphs;
      ghost var was := Line();
      pos := pos - n;
      MoveCursorToPos(pos);
      Close(pos, n);
      GlyphsCut(was, pos, n);
      if echo {
        ShowRest(was, n);
      }
    }

    lemma GlyphsCut(t: string, at: nat, n: nat)
      requires Glyphs(t) && at + n <= |t|
      ensures Glyphs(t[..at] + t[at + n..]) && (t[..at] + t[at + n..])[..at] == t[..at]
    {
    }

    /** The same in terms of what is before and after the cursor. */
    method EraseBefore(n: nat)
      requires Valid() && Fits() && n <= pos && (Live() ==> Tracks() && Shows(scr.cells, prompt + Line())) && (n == 0 ==> Shown())
      modifies `outBuf, `scr, `cursorX, `cursorY, `maxLine, `clean, `len, `pos, line
      ensures Valid() && Shown() && pos == old(pos) - n && len == old(len) - n
      ensures line[..pos] == old(line[..pos])[..pos] && line[pos..len] == old(line[pos..len])
      ensures echo ==> clean == (old(clean) && (Safe() || n == 0 || !EraseStops(width, |prompt| + pos, len - pos, n)))
    {
      hide Play, Shows, EraseStops, Visible, Glyphs, Drawn, Tracks, Cell, Crosses;
      ghost var (b, a) := (line[..pos], line[pos..len]);
      LineIsSplit();
      EraseNPreviousChars(n);
      LineIsSplit();
      Halves(Line(), pos, b[..pos], a);
    }

    lemma Halves(t: string, at: nat, b: string, a: string)
      requires t == b + a && |b| == at
      ensures t[..at] == b && t[at..] == a
    {
    }

    method ShowRest(ghost was: string, n: nat)
      requires Drawn() && pos <= len <= line.Length && Glyphs(line[..len]) && |was| == len + n && was[..pos] == line[..pos]
      requires echo && Cell() == |prompt| + pos && (clean ==> Tracks() && Shows(scr.cells, prompt + was))
      requires clean && !Safe() ==> !Crosses(width, |prompt|, |was|)
      modifies `outBuf, `scr, `cursorX, `cursorY, `maxLine, `clean
      ensures Drawn() && Shown()
      ensures clean == (old(clean) && (Safe() || !EraseStops(width, |prompt| + pos, len - pos, n)))
    {
      hide Play, Overlay, Shows, Crosses, Stops, Path, Visible;
      CrossesLess(width, |prompt|, |was|, len);
      assert Line()[..pos] + Line()[pos..] == Line();
      WriteOver(was, pos, Line()[pos..], n);
      assert prompt + was[..pos] + Line()[pos..] == prompt + Line();
      MoveCursorToPos(pos);
    }

    /** Inserts the character before the cursor. On a terminal whose line feed keeps the column, a character that fills the
        row of the line leaves the screen right if and only if there is exactly one character after the cursor; any other
        leaves it right. */
    method AddKeyToLine(key: char)
      requires Valid() && IsGlyph(key) && Shown()
      modifies `outBuf, `scr, `cursorX, `cursorY, `maxLine, `clean, `line, `len, `pos, line
      ensures Valid() && Shown() && (line == old(line) || fresh(line))
      ensures pos == old(pos) + 1 && Line() == old(Line()[..pos]) + [key] + old(Line()[pos..])
      ensures clean == (old(clean) && (Safe() || !echo || !Crosses(width, |prompt| + pos - 1, len + 1 - pos)))
      ensures old(Live()) ==> (Displayed() <==> Safe() || !Crosses(width, |prompt|, len) || len - pos == 1)
      ensures old(Live()) && pos == len && !clean ==> scr.p == Cell() - 1 + width
    {
      hide Play, Overlay, Shows, Crosses, Visible, Cell, Drawn, Tracks, Stops, Fills, Glyphs, IsGlyph;
      ghost var was := Line();
      if Live() && !Safe() {
        FillsIff(width, |prompt|, |was|, pos);
      }
      Insert(key);
      assert len == |was| + 1 && Line()[..pos] == was[..pos];
      GlyphsInserted(was, pos, key);
      ShowAndStep(was);
    }

    lemma GlyphsInserted(t: string, at: nat, key: char)
      requires Glyphs(t) && at <= |t| && IsGlyph(key)
      ensures Glyphs(t[..at] + [key] + t[at..]) && (t[..at] + [key] + t[at..])[..at] == t[..at]
    {
    }

    /** The rest of it. */
    method ShowAndStep(ghost was: string)
      requires Drawn() && LineOk() && pos < len && |was| == len - 1 && was[..pos] == line[..pos]
      requires echo ==> Cell() == |prompt| + pos && (clean ==> Tracks() && Shows(scr.cells, prompt + was))
      requires Live() && !Safe() && Crosses(width, |prompt| + pos, len - pos) ==>
                 Fills(width, |prompt| + pos, len - pos) && (|prompt| + len) % width == 0
      modifies `outBuf, `scr, `cursorX, `cursorY, `maxLine, `clean, `pos
      ensures Drawn() && LineOk() && pos == old(pos) + 1 && (echo ==> Cell() == |prompt| + pos) && (Live() ==> Displayed())
      ensures clean == (old(clean) && (Safe() || !echo || !Crosses(width, |prompt| + pos - 1, len + 1 - pos)))
      ensures old(Live()) && !clean ==> (Displayed() <==> len - pos == 1) && (pos == len ==> scr.p == Cell() - 1 + width)
    {
      hide Play, Overlay, Shows, Crosses, Visible, Cell, Drawn, Tracks, Stops, Fills;
      if echo {
        ShowInserted(was);
      }
      StepRight();
    }

    /** The text has filled its row, and the line feed after it has kept the column. */
    ghost predicate AtEdge()
      requires len <= line.Length
      reads this, line
    {
      && Cell() == |prompt| + len && Cell() % width == 0 && len - pos <= width && width > 1
      && scr == Screen(scr.cells, Cell() - 1 + width, false, Text) && Shows(scr.cells, prompt + Line())
    }

    method StepRight()
      requires Drawn() && LineOk() && pos < len && (Live() ==> Tracks() && Shows(scr.cells, prompt + Line()))
      modifies `outBuf, `scr, `cursorX, `cursorY, `pos
      ensures Drawn() && LineOk() && pos == old(pos) + 1 && (echo ==> Cell() == |prompt| + pos) && (Live() ==> Displayed())
      ensures echo && old(AtEdge()) ==> (Displayed() <==> len - pos == 1) && (pos == len ==> scr == old(scr) && Cell() == old(Cell()))
    {
      hide Play, Overlay, Shows, Visible, Cell, Path, Glyphs;
      if echo && AtEdge() {
        BackFromEdge(width, crlf, scr, |prompt| + len, len - pos - 1);
      }
      pos := pos + 1;
      MoveCursorToPos(pos);
    }

    method AddAtEnd(key: char)
      requires Valid() && IsGlyph(key) && Shown() && Live() && pos == len
      modifies `outBuf, `scr, `cursorX, `cursorY, `maxLine, `clean, `line, `len, `pos, line
      ensures Valid() && Shown() && pos == len && Line() == old(Line()) + [key] && (line == old(line) || fresh(line))
      ensures clean <==> Safe() || !Crosses(width, |prompt| + len - 1, 1)
      ensures !clean ==> !Displayed() && scr.p == Cell() - 1 + width
    {
      hide Play, Overlay, Shows, Crosses, Visible, Cell, Drawn, Tracks;
      if Live() && !Safe() {
        FillsIff(width, |prompt|, len, pos);
      }
      assert Line()[..pos] == Line() && Line()[pos..] == "";
      AddKeyToLine(key);
    }

    /** The line from the new character on is written out. */
    method ShowInserted(ghost was: string)
      requires Drawn() && pos < len <= line.Length && Glyphs(line[..len]) && |was| == len - 1 && was[..pos] == line[..pos]
      requires echo && Cell() == |prompt| + pos && (clean ==> Tracks() && Shows(scr.cells, prompt + was))
      modifies `outBuf, `scr, `cursorX, `cursorY, `maxLine, `clean
      ensures Drawn() && Cell() == |prompt| + len && (clean ==> Tracks() && Shows(scr.cells, prompt + Line()))
      ensures clean == (old(clean) && (Safe() || !Crosses(width, |prompt| + pos, len - pos)))
      ensures old(clean) && !clean && Fills(width, |prompt| + pos, len - pos) && (|prompt| + len) % width == 0 ==> AtEdge()
    {
      hide Play, Overlay, Shows, Crosses, Visible, Cell, Fills;
      FillsFew(width, |prompt| + pos, len - pos);
      ghost var (cells, p) := (scr.cells, |prompt| + pos);
      ghost var t := Line()[pos..];
      WriteLine(Line()[pos..]);
      if old(clean) && (clean || Fills(width, p, |t|)) {
        assert t + Spaces(0) == t;
        Rewritten(cells, prompt + was, p, t, 0);
        assert (prompt + was)[..p] + t == prompt + Line();
      }
    }

    lemma FillsFew(w: nat, a: nat, n: nat)
      requires w > 0
      ensures Fills(w, a, n) ==> n <= w
    {
    }

    // ----- keys -----

    method CountToLeftWord() returns (n: nat)
      requires LineOk()
      ensures n == pos - Editor.WordStart(line[..pos])
    {
      if pos == 0 {
        return 0;
      }
      ghost var s := line[..pos];
      var at: nat := pos - 1;
      while at > 0
        invariant at < pos && Editor.SkipSpacesLeft(s, pos - 1) == Editor.SkipSpacesLeft(s, at)
      {
        if line[at] != ' ' {
          break;
        }
        at := at - 1;
      }
      assert at == Editor.SkipSpacesLeft(s, pos - 1);
      while at > 0
        invariant at < pos && Editor.WordStart(s) == Editor.SkipWordLeft(s, at)
      {
        if line[at] == ' ' {
          return pos - (at + 1);
        }
        at := at - 1;
      }
      return pos - at;
    }

    method CountToRightWord() returns (n: nat)
      requires LineOk()
      ensures n == Editor.WordEnd(line[pos..len])
    {
      var rest := line[pos..len];
      var word := SkipWord(rest);
      var spaces := SkipSpaces(rest[word..]);
      return word + spaces;
    }

    /** The first loop of countToRightWord, over what is after the cursor. */
    static method SkipWord(s: string) returns (n: nat)
      ensures n == Editor.SkipWordRight(s)
    {
      n := 0;
      while n < |s|
        invariant n <= |s| && Editor.SkipWordRight(s) == n + Editor.SkipWordRight(s[n..])
      {
        assert s[n..][1..] == s[n + 1..];
        if s[n] == ' ' {
          break;
        }
        n := n + 1;
      }
    }

    /** And the second, over what is after the word. */
    static method SkipSpaces(s: string) returns (n: nat)
      ensures n == Editor.SkipSpacesRight(s)
    {
      n := 0;
      while n < |s|
        invariant n <= |s| && Editor.SkipSpacesRight(s) == n + Editor.SkipSpacesRight(s[n..])
      {
        assert s[n..][1..] == s[n + 1..];
        if s[n] != ' ' {
          break;
        }
        n := n + 1;
      }
    }

    /** Moving the logical cursor. */
    method GoTo(to: nat)
      requires Valid() && to <= len && Shown()
      modifies `outBuf, `scr, `cursorX, `cursorY, `pos
      ensures Valid() && Shown() && Edited() == Editor.MoveTo(old(Edited()), to) && clean == old(clean)
    {
      hide Play, Shows;
      LineIsSplit();
      pos := to;
      MoveCursorToPos(pos);
      LineIsSplit();
    }

    /** Writes n spaces one at a time. */
    method WriteSpaces(n: nat)
      requires Drawn() && (Live() ==> Tracks())
      modifies `outBuf, `scr, `cursorX, `cursorY, `maxLine, `clean
      ensures Drawn() && Cell() == old(Cell()) + n
      ensures clean == (old(clean) && (Safe() || !Crosses(width, old(Cell()), n)))
      ensures Live() ==> Tracks() && scr.cells == Overlay(old(scr.cells), old(scr.p), Spaces(n))
    {
      hide Play, Overlay, Crosses, Stops;
      ghost var (cells, p) := (scr.cells, Cell());
      OverlayNothing(cells, p);
      CrossesNothing(width, p, 0);
      assert Spaces(0) == "";
      for i := 0 to n
        invariant Drawn() && Cell() == p + i
        invariant clean == (old(clean) && (Safe() || !Crosses(width, p, i)))
        invariant Live() ==> Tracks() && scr.cells == Overlay(cells, p, Spaces(i))
      {
        OverlayConcat(cells, p, Spaces(i), " ");
        assert Spaces(i) + " " == Spaces(i + 1);
        CrossesMore(width, p, i, 1);
        CrossesAt(width, cursorY, cursorX, 1);
        OneStop(width, cursorX);
        QueueText(" ");
        AdvanceCursor(1);
      }
    }

    lemma OneStop(w: nat, x: nat)
      requires x < w
      ensures (x + 1) % w == 0 <==> x + 1 >= w
    {
    }

    /** What keyDeleteLine writes; it does so even when echo is off. */
    method EraseToEnd(ghost text: string)
      requires Drawn() && pos <= len == |text| && (Live() ==> Tracks() && scr.p == |prompt| + pos && Shows(scr.cells, prompt + text))
      modifies `outBuf, `scr, `cursorX, `cursorY, `maxLine, `clean
      ensures Drawn() && (Live() ==> Tracks() && Shows(scr.cells, prompt + text[..pos]))
      ensures clean == (old(clean) && (Safe() || !Crosses(width, old(Cell()), len - pos)))
    {
      hide Play, Overlay, Shows, Crosses;
      ghost var (cells, p) := (scr.cells, scr.p);
      WriteSpaces(len - pos);
      if Live() {
        Rewritten(cells, prompt + text, p, "", len - pos);
        assert "" + Spaces(len - pos) == Spaces(len - pos);
        assert (prompt + text)[..p] + "" == prompt + text[..pos];
      }
    }

    method DeleteToEnd()
      requires Valid() && Shown()
      modifies `outBuf, `scr, `cursorX, `cursorY, `maxLine, `clean, `len
      ensures Valid() && Shown() && Line() == old(Line()[..pos])
      ensures echo ==> clean == (old(clean) && (Safe() || !Crosses(width, |prompt| + pos, old(len) - pos)))
    {
      hide Play, Overlay, Shows, Crosses, Cell, Path, Visible;
      CrossesLess(width, |prompt|, len, pos);
      EraseToEnd(Line());
      assert Line()[..pos] == line[..pos];
      len := pos;
      MoveCursorToPos(pos);
    }

    /** The cursor goes to the row below the line, where nothing has been written. */
    method NewRow()
      requires Valid() && Shown()
      modifies `outBuf, `scr, `cursorX, `cursorY
      ensures Valid()
      ensures Live() ==> scr.esc == Text && !scr.pending && scr.p % width == 0 && forall i | i >= scr.p :: At(scr.cells, i) == ' '
    {
      hide Play;
      MoveCursorToPos(len);
      Division(scr.p, width);
      NextRow(width, crlf, scr);
      Queue("\r\n");
    }

    lemma NextRow(w: nat, crlf: bool, s: Screen)
      requires w > 0 && s.esc == Text
      ensures Play(w, crlf, s, "\r\n") == s.(p := s.p - s.p % w + w, pending := false)
      ensures (s.p - s.p % w + w) % w == 0 && s.p < s.p - s.p % w + w
    {
      PlayOne(w, crlf, s, '\r');
      assert "\r\n"[..1] == "\r";
      Division(s.p, w);
      assert s.p - s.p % w == (s.p / w) * w;
      assert s.p - s.p % w + w == (s.p / w + 1) * w;
      InRow(w, s.p / w + 1, 0);
      InRow(w, s.p / w, 0);
    }

    /** keyEnter: from the new row on everything starts over. */
    method EnterKey() returns (entered: string)
      requires Valid() && Shown()
      modifies `outBuf, `scr, `cursorX, `cursorY, `maxLine, `begun, `len, `pos
      ensures Valid() && entered == old(Line()) && len == pos == 0
      ensures Tracks() && Cell() == 0 && scr == Blank()
    {
      NewRow();
      entered := Line();
      len, pos, cursorX, cursorY, maxLine := 0, 0, 0, 0, 0;
      begun, scr := |outBuf|, Blank();
    }

    /** The first half of keyClearScreen: the screen shows the prompt only, and where the prompt ends at the end of a row
        a line feed that keeps the column leaves the cursor at the end of the next one. */
    method ClearAndPrompt()
      requires Valid()
      modifies `outBuf, `scr, `cursorX, `cursorY, `maxLine, `clean
      ensures Drawn() && Cell() == |prompt| && clean == (Safe() || !Stops(width, 0, |prompt|))
      ensures Live() ==> Tracks()
      ensures echo ==> Shows(scr.cells, prompt)
      ensures echo && !clean ==> scr == Screen(scr.cells, |prompt| - 1 + width, false, Text)
    {
      hide Play, Overlay, Shows, Crosses, Stops, Visible, Path;
      var clear := [ESC, '[', '2', 'J', ESC, '[', 'H'];
      ClearPlays(width, crlf, scr);
      Queue(clear);
      clean := true;
      QueueText(prompt);
      cursorX, cursorY := 0, 0;
      var n := VisualLength(prompt);
      AdvanceCursor(n);
      OnlyPrompt(prompt);
    }

    /** keyClearScreen, after which the screen is right whatever it was before, unless prompt or line come to the end of a
        row; for a prompt that does it is said what happens. */
    method ClearScreenKey()
      requires Valid() && Shown()
      modifies `outBuf, `scr, `cursorX, `cursorY, `maxLine, `clean, `line, `len, `pos
      ensures Valid() && Shown() && pos == old(pos) && Line() == old(Line()) && fresh(line)
      ensures echo ==> clean == (Safe() || !(Stops(width, 0, |prompt|) || Crosses(width, |prompt|, len)))
      ensures echo && !Safe() && Stops(width, 0, |prompt|) && !Crosses(width, |prompt|, len) ==>
                (Displayed() <==> width == 2 && Line() == " " && pos == 0)
    {
      hide Play, Overlay, Shows, Crosses, Stops, Visible, Path, Glyphs, Drawn, Cell;
      assert prompt + "" == prompt;
      ClearAndPrompt();
      StopsAt(width, |prompt|);
      if echo && !Safe() && Stops(width, 0, |prompt|) && !Crosses(width, |prompt|, len) {
        StaysInRow(width, |prompt|, len);
        AfterFullPrompt(width, crlf, scr, prompt, line[..len], pos);
      }
      SetLine("", line[..len], pos);
    }

    lemma StaysInRow(w: nat, p: nat, len: nat)
      requires w > 0 && !Crosses(w, p, len)
      ensures p % w + len < w
    {
      hide Crosses;
      assert p == (p / w) * w + p % w;
      CrossesAt(w, p / w, p % w, len);
    }

    lemma ClearPlays(w: nat, crlf: bool, s: Screen)
      requires w > 0 && s.esc == Text
      ensures Play(w, crlf, s, [ESC, '[', '2', 'J', ESC, '[', 'H']) == Blank()
    {
      hide Play;
      var t := s.(esc := Started);
      PlayConcat(w, crlf, s, [ESC], ['[']);
      PlayConcat(w, crlf, s, [ESC, '['], ['2']);
      PlayConcat(w, crlf, s, [ESC, '[', '2'], ['J']);
      PlayConcat(w, crlf, s, [ESC, '[', '2', 'J'], [ESC, '[', 'H']);
      assert [ESC] + ['['] == [ESC, '['] && [ESC, '['] + ['2'] == [ESC, '[', '2'] && [ESC, '[', '2'] + ['J'] == [ESC, '[', '2', 'J'];
      assert [ESC, '[', '2', 'J'] + [ESC, '[', 'H'] == [ESC, '[', '2', 'J', ESC, '[', 'H'];
      PlayOne(w, crlf, s, ESC);
      PlayOne(w, crlf, t, '[');
      PlayOne(w, crlf, t.(esc := Sequence), '2');
      PlayOne(w, crlf, t.(esc := Sequence), 'J');
      One(w, crlf, s.(cells := map[]), 'H');
    }

    lemma OnlyPrompt(text: string)
      ensures Shows(Overlay(map[], 0, text), text)
    {
      Rewritten(map[], "", 0, text, 0);
      assert text + Spaces(0) == text && ""[..0] + text == text;
    }

    method UpKey()
      requires Valid() && HistoryOk() && Shown()
      modifies this
      ensures Valid() && Shown() && (line == old(line) || fresh(line)) && Edited() == Editor.UpKey(old(Edited()), history.log)
      ensures echo ==> clean == (old(clean) && (Safe() || !KeyStops(width, |prompt|, old(Edited()), history.log, Editor.Up)))
      ensures old(Live()) && !clean ==> !Displayed()
    {
      hide Play, Overlay, Shows, Crosses;
      var entry := history.NthPreviousEntry(historyIndex + 1);
      if entry.None? {
        return;
      }
      LineIsSplit();
      if historyIndex == -1 {
        historyPending := Line();
      }
      historyIndex := historyIndex + 1;
      assert entry.value in history.log;
      SetLine(Line(), entry.value, |entry.value|);
    }

    /** The line is what is before and after the cursor. */
    lemma LineIsSplit()
      requires pos <= len <= line.Length
      ensures line[..pos] + line[pos..len] == Line()
      ensures Line()[..pos] == line[..pos] && Line()[pos..] == line[pos..len]
    {
    }

    method DownKey()
      requires Valid() && HistoryOk() && Shown()
      modifies this
      ensures Valid() && Shown() && (line == old(line) || fresh(line)) && Edited() == Editor.DownKey(old(Edited()), history.log)
      ensures echo ==> clean == (old(clean) && (Safe() || !KeyStops(width, |prompt|, old(Edited()), history.log, Editor.Down)))
      ensures old(Live()) && !clean ==> !Displayed()
    {
      hide Play, Overlay, Shows, Crosses;
      if historyIndex == -1 {
        return;
      }
      if historyIndex == 0 {
        SetLine(Line(), historyPending, |historyPending|);
        historyIndex := historyIndex - 1;
      } else {
        var entry := history.NthPreviousEntry(historyIndex - 1);
        if entry.Some? {
          historyIndex := historyIndex - 1;
          assert entry.value in history.log;
          SetLine(Line(), entry.value, |entry.value|);
        }
      }
    }

    method AltLeftKey()
      requires Valid() && Shown()
      modifies `outBuf, `scr, `cursorX, `cursorY, `pos
      ensures Valid() && Shown() && Edited() == Editor.Press(old(Edited()), history.log, Editor.AltLeft).0
      ensures echo ==> clean == (old(clean) && (Safe() || !KeyStops(width, |prompt|, old(Edited()), history.log, Editor.AltLeft)))
    {
      hide Play, Shows, Editor.WordStart, Editor.Press;
      Editor.MovesTo(Edited(), history.log, Editor.AltLeft);
      var n := CountToLeftWord();
      GoTo(pos - n);
    }

    method AltRightKey()
      requires Valid() && Shown()
      modifies `outBuf, `scr, `cursorX, `cursorY, `pos
      ensures Valid() && Shown() && Edited() == Editor.Press(old(Edited()), history.log, Editor.AltRight).0
      ensures echo ==> clean == (old(clean) && (Safe() || !KeyStops(width, |prompt|, old(Edited()), history.log, Editor.AltRight)))
    {
      hide Play, Shows, Editor.WordEnd, Editor.Press;
      Editor.MovesTo(Edited(), history.log, Editor.AltRight);
      var n := CountToRightWord();
      GoTo(pos + n);
    }

    /** keyLeft, keyRight, keyHome and keyEnd, which do nothing where the cursor cannot move. */
    method CursorKey(key: Editor.Key)
      requires Valid() && Shown() && (key == Editor.Left || key == Editor.Right || key == Editor.Home || key == Editor.End)
      modifies `outBuf, `scr, `cursorX, `cursorY, `pos
      ensures Valid() && Shown()
      ensures Edited() == Editor.Press(old(Edited()), history.log, key).0
      ensures echo ==> clean == (old(clean) && (Safe() || !KeyStops(width, |prompt|, old(Edited()), history.log, key)))
    {
      hide Play, Shows, Editor.Press;
      Editor.MovesTo(Edited(), history.log, key);
      LineIsSplit();
      Editor.CutText(line[..pos], line[pos..len], pos);
      if (key == Editor.Left || key == Editor.Home) && pos == 0 {
        return;
      }
      if (key == Editor.Right || key == Editor.End) && pos == len {
        return;
      }
      if key == Editor.Left {
        GoTo(pos - 1);
      } else if key == Editor.Right {
        GoTo(pos + 1);
      } else if key == Editor.Home {
        GoTo(0);
      } else {
        GoTo(len);
      }
    }

    /** The keys that delete before the cursor. */
    method DeleteKey(key: Editor.Key)
      requires Valid() && Shown() && (key == Editor.Backspace || key == Editor.DeleteWord || key == Editor.CtrlU)
      modifies `outBuf, `scr, `cursorX, `cursorY, `maxLine, `clean, `len, `pos, line
      ensures Valid() && Shown()
      ensures Edited() == Editor.Press(old(Edited()), history.log, key).0
      ensures echo ==> clean == (old(clean) && (Safe() || !KeyStops(width, |prompt|, old(Edited()), history.log, key)))
    {
      hide Play, Shows, Editor.WordStart, EraseStops, KeyStops, Editor.Press, Visible, Glyphs, Drawn, Tracks, Cell, Crosses, Editor.Text;
      DeletesStop(width, |prompt|, Edited(), history.log, key);
      LineIsSplit();
      var n := 0;
      if key == Editor.Backspace {
        if pos == 0 {
          return;
        }
        n := 1;
      } else if key == Editor.DeleteWord {
        n := CountToLeftWord();
      } else {
        n := pos;
      }
      EraseBefore(n);
    }

    lemma DeletesStop(w: nat, p: nat, s: Editor.State, log: seq<string>, key: Editor.Key)
      requires w > 0 && s.index >= -1 && (key == Editor.Backspace || key == Editor.DeleteWord || key == Editor.CtrlU)
      ensures var (b, s') := (|s.before|, Editor.Press(s, log, key).0);
              && |s'.before| <= b && s'.after == s.after && s' == s.(before := s.before[..|s'.before|])
              && |s'.before| == (if b == 0 then 0 else if key == Editor.Backspace then b - 1 else if key == Editor.CtrlU then 0 else Editor.WordStart(s.before))
              && (KeyStops(w, p, s, log, key) <==> b > 0 && EraseStops(w, p + |s'.before|, |s.after|, b - |s'.before|))
    {
      hide EraseStops, Editor.WordStart;
    }

    /** keyCtrlD when the line is not empty. */
    method CtrlDKey()
      requires Valid() && Shown()
      modifies `outBuf, `scr, `cursorX, `cursorY, `maxLine, `clean, `len, `pos, line
      ensures Valid() && Shown()
      ensures Edited() == Editor.Press(old(Edited()), history.log, Editor.CtrlD).0
      ensures echo ==> clean == (old(clean) && (Safe() || !KeyStops(width, |prompt|, old(Edited()), history.log, Editor.CtrlD)))
    {
      hide Play, Shows, EraseStops, Visible, Glyphs, Drawn, Cell, KeyStops, Editor.Press, Crosses;
      ghost var s := Edited();
      LineIsSplit();
      DeleteStops(width, |prompt|, s, history.log);
      if pos < len {
        SplitAfter(line[..len], pos);
        pos := pos + 1;
        EraseBefore(1);
      }
    }

    lemma SplitAfter(t: string, at: nat)
      requires at < |t|
      ensures t[..at + 1][..at] == t[..at] && t[at + 1..] == t[at..][1..]
    {
    }

    lemma DeleteStops(w: nat, p: nat, s: Editor.State, log: seq<string>)
      requires w > 0 && s.index >= -1
      ensures Editor.Press(s, log, Editor.CtrlD).0 == if s.after == [] then s else s.(after := s.after[1..])
      ensures KeyStops(w, p, s, log, Editor.CtrlD) <==> s.after != [] && EraseStops(w, p + |s.before|, |s.after| - 1, 1)
    {
      hide EraseStops;
    }

    /** A key that is no command: addKeyToLine, unless it is not printable or the line is full. */
    method RuneKey(c: char)
      requires Valid() && Shown()
      modifies `outBuf, `scr, `cursorX, `cursorY, `maxLine, `clean, `line, `len, `pos, line
      ensures Valid() && Shown() && (line == old(line) || fresh(line))
      ensures Edited() == Editor.Press(old(Edited()), history.log, Editor.Rune(c)).0
      ensures echo ==> clean == (old(clean) && (Safe() || !KeyStops(width, |prompt|, old(Edited()), history.log, Editor.Rune(c))))
      ensures old(Live()) ==> (Displayed() <==> Safe() || !KeyBreaks(width, |prompt|, old(Edited()), history.log, Editor.Rune(c)))
    {
      hide Play, Shows, Crosses;
      LineIsSplit();
      if Editor.IsPrintable(c) && len != Editor.MAX_LINE_LENGTH {
        AddKeyToLine(c);
        LineIsSplit();
      }
    }

    method DeleteLineKey()
      requires Valid() && Shown()
      modifies `outBuf, `scr, `cursorX, `cursorY, `maxLine, `clean, `len
      ensures Valid() && Shown()
      ensures Edited() == Editor.Press(old(Edited()), history.log, Editor.DeleteLine).0
      ensures echo ==> clean == (old(clean) && (Safe() || !KeyStops(width, |prompt|, old(Edited()), history.log, Editor.DeleteLine)))
    {
      hide Play, Shows, Crosses;
      LineIsSplit();
      DeleteToEnd();
      LineIsSplit();
    }

    /** The keys that can make the line longer or draw it anew. */
    method DrawingKey(key: Editor.Key)
      requires Valid() && HistoryOk() && Shown() && (key == Editor.Up || key == Editor.Down || key == Editor.ClearScreen || key.Rune?)
      modifies this, line
      ensures Valid() && (line == old(line) || fresh(line)) && Shown()
      ensures (Edited(), None) == Editor.Press(old(Edited()), history.log, key)
      ensures echo ==> clean == ((old(clean) || key == Editor.ClearScreen) && (Safe() || !KeyStops(width, |prompt|, old(Edited()), history.log, key)))
      ensures old(Live()) ==> (Displayed() <==> Safe() || !KeyBreaks(width, |prompt|, old(Edited()), history.log, key))
    {
      hide Play, Shows, Editor.UpKey, Editor.DownKey, Crosses, Stops, EraseStops, Glyphs, Visible, Drawn, Tracks, Cell, Fills;
      LineIsSplit();
      if Live() && !Safe() {
        StopsMeans(width, |prompt|, Edited(), history.log, key);
      }
      match key {
        case Up => UpKey();
        case Down => DownKey();
        case ClearScreen =>
          StopsAt(width, |prompt|);
          ClearScreenKey();
          LineIsSplit();
        case Rune(c) => RuneKey(c);
      }
    }

    /** The keys that move within the line or delete in it. */
    method EditingKey(key: Editor.Key)
      requires Valid() && Shown()
      requires key != Editor.Enter && key != Editor.Up && key != Editor.Down && key != Editor.ClearScreen && !key.Rune?
      modifies `outBuf, `scr, `cursorX, `cursorY, `maxLine, `clean, `len, `pos, line
      ensures Valid() && line == old(line) && Shown()
      ensures Edited() == Editor.Press(old(Edited()), history.log, key).0
      ensures echo ==> clean == (old(clean) && (Safe() || !KeyStops(width, |prompt|, old(Edited()), history.log, key)))
    {
      hide Play, Shows, Crosses, Stops, Glyphs, Visible, Drawn, Tracks, Cell, KeyStops, Editor.Press;
      match key {
        case Backspace => DeleteKey(key);
        case DeleteWord => DeleteKey(key);
        case CtrlU => DeleteKey(key);
        case AltLeft => AltLeftKey();
        case AltRight => AltRightKey();
        case Left => CursorKey(key);
        case Right => CursorKey(key);
        case Home => CursorKey(key);
        case End => CursorKey(key);
        case DeleteLine => DeleteLineKey();
        case CtrlD => CtrlDKey();
      }
    }

    /** handleKey outside a paste and without an AutoCompleteCallback: it does to the line what the key means. With echo on,
        from a screen that shows the prompt and the line with the cursor in its place, it leaves one that shows the new
        line so, if and only if the line feed returns to column 0, there is one column, or the key is none of those that
        KeyBreaks names. */
    method HandleKey(key: Editor.Key) returns (entered: Option<string>)
      requires Valid() && HistoryOk() && Shown()
      modifies this, line
      ensures Valid() && (line == old(line) || fresh(line))
      ensures (Edited(), entered) == Editor.Press(old(Edited()), history.log, key)
      ensures if key == Editor.Enter then Cell() == 0 && scr == Blank() else Shown()
      ensures echo ==> clean == ((old(clean) || key == Editor.ClearScreen) && (Safe() || !KeyStops(width, |prompt|, old(Edited()), history.log, key)))
      ensures old(Live()) && key != Editor.Enter ==> (Displayed() <==> Safe() || !KeyBreaks(width, |prompt|, old(Edited()), history.log, key))
    {
      hide Play, Shows, Crosses, Stops, EraseStops, Glyphs, Visible, Drawn, Tracks, Cell, Fills, KeyBreaks, KeyStops, Editor.Press;
      LineIsSplit();
      Enters(width, |prompt|, Edited(), history.log);
      if Live() && !Safe() {
        StopsMeans(width, |prompt|, Edited(), history.log, key);
      }
      entered := None;
      match key {
        case Enter =>
          var text := EnterKey();
          entered := Some(text);
          LineIsSplit();
        case Up => DrawingKey(key);
        case Down => DrawingKey(key);
        case ClearScreen => DrawingKey(key);
        case Rune(c) => DrawingKey(key);
        case _ => EditingKey(key);
      }
    }

    lemma Enters(w: nat, p: nat, s: Editor.State, log: seq<string>)
      requires w > 0 && s.index >= -1
      ensures Editor.Press(s, log, Editor.Enter) == (s.(before := "", after := ""), Some(Editor.Text(s)))
      ensures !KeyStops(w, p, s, log, Editor.Enter)
      ensures forall key | key != Editor.Enter :: Editor.Press(s, log, key).1 == None
    {
    }

    /** The end of readLine: with echo on, the line becomes the newest entry of the history. */
    method Remember(entered: string)
      requires Valid() && HistoryOk() && Glyphs(entered)
      modifies `historyIndex, history, history.entries
      ensures Valid() && HistoryOk()
      ensures history.log == (if echo then old(history.log) + [entered] else old(history.log)) && (echo ==> historyIndex == -1)
    {
      if echo {
        historyIndex := -1;
        history.Add(entered);
      }
    }
  }

  /** Without a return to column 0: three columns, a prompt of two, and the first character typed fills the row. The
      line is right, cursorX and cursorY are right for it, but the cursor is left at the end of the second row. */
  method FilledRow() returns (t: Terminal)
    ensures t.echo && t.width == 3 && !t.crlf && t.Valid() && t.Shown() && t.Line() == "a" && t.Cell() == 3
    ensures !t.Displayed() && t.scr.p == 5
  {
    hide Play, Shows, Overlay, Crosses;
    var history := new History.StRingBuffer();
    t := new Terminal(3, "> ", history, true, false);
    NothingShown();
    assert !Crosses(3, 0, 2) && Crosses(3, 2, 1) by { Third(); }
    t.ShowPrompt();
    t.AddAtEnd('a');
  }

  lemma Third()
    ensures !Crosses(3, 0, 2) && Crosses(3, 2, 1)
  {
  }

  lemma NothingShown()
    ensures Shows(map[], "")
  {
  }
}
