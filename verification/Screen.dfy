/** What a terminal of a given width makes of the characters and escape sequences that the line editor sends
    (terminal.go). A position counts cells from the upper left corner, row by row; the screen has as many rows as are
    needed. After a glyph in the last column the cursor stays there, and only the next glyph goes to the next row:
    pending says so. A line feed keeps the column, unless crlf says that it also returns to column 0, as it does where
    the tty's output processing (OPOST with ONLCR) puts a carriage return before it. */
module Screens {
  datatype Escape = Text | Started | Sequence

  datatype Screen = Screen(cells: map<nat, char>, p: nat, pending: bool, esc: Escape)

  const ESC: char := '\U{1B}'

  function Blank(): Screen {
    Screen(map[], 0, false, Text)
  }

  function At(cells: map<nat, char>, i: nat): char {
    if i in cells then cells[i] else ' '
  }

  /** Where the next glyph goes. */
  function Next(s: Screen): nat {
    if s.pending then s.p + 1 else s.p
  }

  function Glyph(w: nat, s: Screen, c: char): Screen
    requires w > 0
  {
    var at := Next(s);
    if (at + 1) % w == 0 then s.(cells := s.cells[at := c], p := at, pending := true)
    else s.(cells := s.cells[at := c], p := at + 1, pending := false)
  }

  function Feed(w: nat, crlf: bool, s: Screen, c: char): Screen
    requires w > 0
  {
    match s.esc
    case Started => s.(esc := if c == '[' then Sequence else Text)
    case Sequence =>
      if c == '2' then s
      else
        var t := s.(esc := Text);
        if c == 'A' then t.(p := if s.p >= w then s.p - w else s.p, pending := false)
        else if c == 'B' then t.(p := s.p + w, pending := false)
        else if c == 'C' then t.(p := if s.p % w < w - 1 then s.p + 1 else s.p, pending := false)
        else if c == 'D' then t.(p := if s.p % w > 0 then s.p - 1 else s.p, pending := false)
        else if c == 'J' then t.(cells := map[])
        else if c == 'H' then t.(p := 0, pending := false)
        else t
    case Text =>
      if c == ESC then s.(esc := Started)
      else if c == '\n' then s.(p := if crlf then s.p - s.p % w + w else s.p + w, pending := false)
      else if c == '\r' then s.(p := s.p - s.p % w, pending := false)
      else Glyph(w, s, c)
  }

  function Play(w: nat, crlf: bool, s: Screen, out: string): Screen
    requires w > 0
  {
    if out == [] then s else Feed(w, crlf, Play(w, crlf, s, out[..|out| - 1]), out[|out| - 1])
  }

  lemma {:induction false} PlayConcat(w: nat, crlf: bool, s: Screen, a: string, b: string)
    requires w > 0
    ensures Play(w, crlf, s, a + b) == Play(w, crlf, Play(w, crlf, s, a), b)
  {
    if b == [] {
      assert a + b == a;
    } else {
      assert (a + b)[..|a + b| - 1] == a + b[..|b| - 1];
      PlayConcat(w, crlf, s, a, b[..|b| - 1]);
    }
  }

  // ----- text -----

  predicate IsGlyph(c: char) {
    c != ESC && c != '\n' && c != '\r'
  }

  predicate Glyphs(t: string) {
    forall i | 0 <= i < |t| :: IsGlyph(t[i])
  }

  function Overlay(cells: map<nat, char>, p: nat, t: string): map<nat, char> {
    if t == [] then cells else Overlay(cells, p, t[..|t| - 1])[p + |t| - 1 := t[|t| - 1]]
  }

  lemma {:induction false} OverlayAt(cells: map<nat, char>, p: nat, t: string, i: nat)
    ensures At(Overlay(cells, p, t), i) == if p <= i < p + |t| then t[i - p] else At(cells, i)
  {
    if t != [] {
      OverlayAt(cells, p, t[..|t| - 1], i);
    }
  }

  lemma {:induction false} OverlayConcat(cells: map<nat, char>, p: nat, a: string, b: string)
    ensures Overlay(cells, p, a + b) == Overlay(Overlay(cells, p, a), p + |a|, b)
  {
    if b == [] {
      assert a + b == a;
    } else {
      assert (a + b)[..|a + b| - 1] == a + b[..|b| - 1];
      OverlayConcat(cells, p, a, b[..|b| - 1]);
    }
  }

  /** The screen on which the next glyph goes to cell at. */
  function Before(cells: map<nat, char>, at: nat, pending: bool): Screen {
    Screen(cells, if pending && at > 0 then at - 1 else at, pending, Text)
  }

  /** Text is written from the cursor on, across the ends of rows; after its last glyph in the last column of a row the
      cursor stays there. */
  lemma {:induction false} PlayText(w: nat, crlf: bool, s: Screen, t: string)
    requires w > 0 && s.esc == Text && Glyphs(t)
    ensures Play(w, crlf, s, t)
            == Before(Overlay(s.cells, Next(s), t), Next(s) + |t|, if t == [] then s.pending else (Next(s) + |t|) % w == 0)
  {
    if t != [] {
      PlayText(w, crlf, s, t[..|t| - 1]);
    }
  }

  /** What a line feed after such text comes to: it completes the move to the next row if it returns to column 0, and
      otherwise leaves the cursor one row below where the last glyph is; these are the same only for width 1. */
  lemma LineFeed(w: nat, crlf: bool, cells: map<nat, char>, at: nat)
    requires w > 0 && at > 0 && at % w == 0
    ensures Play(w, crlf, Before(cells, at, true), ['\n']) == Screen(cells, if crlf then at else at - 1 + w, false, Text)
  {
    assert ['\n'][..0] == [];
    var y := at / w;
    assert at == y * w && at - 1 == (y - 1) * w + (w - 1);
    InRow(w, y - 1, w - 1);
  }

  // ----- moving -----

  function Repeat(t: string, n: nat): string {
    if n == 0 then [] else Repeat(t, n - 1) + t
  }

  /** What the terminal is sent to move. */
  function Moves(up: nat, down: nat, left: nat, right: nat): string {
    Repeat([ESC, '[', 'A'], up) + Repeat([ESC, '[', 'B'], down) + Repeat([ESC, '[', 'D'], left) + Repeat([ESC, '[', 'C'], right)
  }

  lemma One(w: nat, crlf: bool, s: Screen, c: char)
    requires w > 0 && s.esc == Text && c != '2'
    ensures Play(w, crlf, s, [ESC, '[', c]) == Feed(w, crlf, s.(esc := Sequence), c)
  {
    var t := [ESC, '[', c];
    assert t[..2] == [ESC, '['] && t[..2][..1] == [ESC] && [ESC][..0] == [];
    assert Play(w, crlf, s, [ESC]) == Feed(w, crlf, s, ESC);
    assert Play(w, crlf, s, [ESC, '[']) == Feed(w, crlf, Play(w, crlf, s, [ESC]), '[');
  }

  lemma PlayNothing(w: nat, crlf: bool, s: Screen)
    requires w > 0
    ensures Play(w, crlf, s, []) == s
  {
  }

  lemma {:induction false} Ups(w: nat, crlf: bool, s: Screen, n: nat)
    requires w > 0 && s.esc == Text && !s.pending && s.p >= n * w
    ensures Play(w, crlf, s, Repeat([ESC, '[', 'A'], n)) == s.(p := s.p - n * w)
  {
    hide Play;
    PlayNothing(w, crlf, s);
    if n > 0 {
      assert n * w == (n - 1) * w + w;
      Ups(w, crlf, s, n - 1);
      PlayConcat(w, crlf, s, Repeat([ESC, '[', 'A'], n - 1), [ESC, '[', 'A']);
      One(w, crlf, s.(p := s.p - (n - 1) * w), 'A');
    }
  }

  lemma {:induction false} Downs(w: nat, crlf: bool, s: Screen, n: nat)
    requires w > 0 && s.esc == Text && !s.pending
    ensures Play(w, crlf, s, Repeat([ESC, '[', 'B'], n)) == s.(p := s.p + n * w)
  {
    hide Play;
    PlayNothing(w, crlf, s);
    if n > 0 {
      assert n * w == (n - 1) * w + w;
      Downs(w, crlf, s, n - 1);
      PlayConcat(w, crlf, s, Repeat([ESC, '[', 'B'], n - 1), [ESC, '[', 'B']);
      One(w, crlf, s.(p := s.p + (n - 1) * w), 'B');
    }
  }

  lemma InRow(w: nat, y: nat, x: nat)
    requires x < w
    ensures (y * w + x) % w == x && (y * w + x) / w == y
  {
    var p := y * w + x;
    var d := p / w - y;
    assert p == (p / w) * w + p % w;
    assert (p / w) * w == y * w + d * w;
    assert d > 0 ==> d * w >= w;
    assert d < 0 ==> d * w <= -(w as int);
  }

  lemma {:induction false} Lefts(w: nat, crlf: bool, s: Screen, y: nat, x: nat, n: nat)
    requires w > 0 && s.esc == Text && !s.pending && x < w && s.p == y * w + x && n <= x
    ensures Play(w, crlf, s, Repeat([ESC, '[', 'D'], n)) == s.(p := s.p - n)
  {
    hide Play;
    PlayNothing(w, crlf, s);
    if n > 0 {
      Lefts(w, crlf, s, y, x, n - 1);
      PlayConcat(w, crlf, s, Repeat([ESC, '[', 'D'], n - 1), [ESC, '[', 'D']);
      InRow(w, y, x - (n - 1));
      One(w, crlf, s.(p := s.p - (n - 1)), 'D');
    }
  }

  lemma {:induction false} Rights(w: nat, crlf: bool, s: Screen, y: nat, x: nat, n: nat)
    requires w > 0 && s.esc == Text && !s.pending && s.p == y * w + x && x + n < w
    ensures Play(w, crlf, s, Repeat([ESC, '[', 'C'], n)) == s.(p := s.p + n)
  {
    hide Play;
    PlayNothing(w, crlf, s);
    if n > 0 {
      Rights(w, crlf, s, y, x, n - 1);
      PlayConcat(w, crlf, s, Repeat([ESC, '[', 'C'], n - 1), [ESC, '[', 'C']);
      InRow(w, y, x + n - 1);
      One(w, crlf, s.(p := s.p + (n - 1)), 'C');
    }
  }

  function Excess(a: nat, b: nat): nat {
    if a > b then a - b else 0
  }

  /** From row Y and column X to row y and column x. */
  lemma MovesTo(w: nat, crlf: bool, s: Screen, Y: nat, X: nat, y: nat, x: nat)
    requires w > 0 && s.esc == Text && !s.pending && X < w && x < w && s.p == Y * w + X
    ensures Play(w, crlf, s, Moves(Excess(Y, y), Excess(y, Y), Excess(X, x), Excess(x, X))) == s.(p := y * w + x)
  {
    hide Play, Repeat;
    var (u, d, l, r) := (Excess(Y, y), Excess(y, Y), Excess(X, x), Excess(x, X));
    var (a, b, c, e) := (Repeat([ESC, '[', 'A'], u), Repeat([ESC, '[', 'B'], d), Repeat([ESC, '[', 'D'], l), Repeat([ESC, '[', 'C'], r));
    PlayConcat(w, crlf, s, a + b + c, e);
    PlayConcat(w, crlf, s, a + b, c);
    PlayConcat(w, crlf, s, a, b);
    Rows(w, Y, u);
    Ups(w, crlf, s, u);
    var s1 := s.(p := s.p - u * w);
    Downs(w, crlf, s1, d);
    var s2 := s1.(p := s1.p + d * w);
    RowsMoved(w, Y, y, X);
    Lefts(w, crlf, s2, y, X, l);
    Rights(w, crlf, s2.(p := s2.p - l), y, X - l, r);
  }

  /** Wherever the cursor is, the moves are whole sequences. */
  lemma {:induction false} RepeatIsWhole(w: nat, crlf: bool, s: Screen, c: char, n: nat)
    requires w > 0 && s.esc == Text && c in "ABCD"
    ensures Play(w, crlf, s, Repeat([ESC, '[', c], n)).esc == Text
  {
    hide Play;
    PlayNothing(w, crlf, s);
    if n > 0 {
      RepeatIsWhole(w, crlf, s, c, n - 1);
      var t := Play(w, crlf, s, Repeat([ESC, '[', c], n - 1));
      PlayConcat(w, crlf, s, Repeat([ESC, '[', c], n - 1), [ESC, '[', c]);
      One(w, crlf, t, c);
    }
  }

  lemma MovesAreWhole(w: nat, crlf: bool, s: Screen, up: nat, down: nat, left: nat, right: nat)
    requires w > 0 && s.esc == Text
    ensures Play(w, crlf, s, Moves(up, down, left, right)).esc == Text
    ensures up == down == left == right == 0 ==> Play(w, crlf, s, Moves(up, down, left, right)) == s
  {
    hide Play, Repeat;
    var (a, b, c, d) := (Repeat([ESC, '[', 'A'], up), Repeat([ESC, '[', 'B'], down), Repeat([ESC, '[', 'D'], left), Repeat([ESC, '[', 'C'], right));
    PlayConcat(w, crlf, s, a + b + c, d);
    PlayConcat(w, crlf, s, a + b, c);
    PlayConcat(w, crlf, s, a, b);
    RepeatIsWhole(w, crlf, s, 'A', up);
    RepeatIsWhole(w, crlf, Play(w, crlf, s, a), 'B', down);
    RepeatIsWhole(w, crlf, Play(w, crlf, s, a + b), 'D', left);
    RepeatIsWhole(w, crlf, Play(w, crlf, s, a + b + c), 'C', right);
    if up == down == left == right == 0 {
      assert Moves(0, 0, 0, 0) == [] by { RepeatNothing(); }
      PlayNothing(w, crlf, s);
    }
  }

  lemma RepeatNothing()
    ensures forall t :: Repeat(t, 0) == []
  {
  }

  /** What the terminal is sent to go from one cell to another. */
  function Path(w: nat, a: nat, b: nat): string
    requires w > 0
  {
    Moves(Excess(a / w, b / w), Excess(b / w, a / w), Excess(a % w, b % w), Excess(b % w, a % w))
  }

  /** In the last column there is nothing to the right. */
  lemma {:induction false} RightsAtEdge(w: nat, crlf: bool, s: Screen, n: nat)
    requires w > 0 && s.esc == Text && !s.pending && s.p % w == w - 1
    ensures Play(w, crlf, s, Repeat([ESC, '[', 'C'], n)) == s
  {
    hide Play;
    PlayNothing(w, crlf, s);
    if n > 0 {
      RightsAtEdge(w, crlf, s, n - 1);
      PlayConcat(w, crlf, s, Repeat([ESC, '[', 'C'], n - 1), [ESC, '[', 'C']);
      One(w, crlf, s, 'C');
    }
  }

  /** Moves to the left stay in the row, and touch nothing. */
  lemma {:induction false} LeftsInRow(w: nat, crlf: bool, s: Screen, n: nat)
    requires w > 0 && s.esc == Text
    ensures var t := Play(w, crlf, s, Repeat([ESC, '[', 'D'], n)); t.esc == Text && t.p / w == s.p / w && t.cells == s.cells
  {
    hide Play;
    PlayNothing(w, crlf, s);
    if n > 0 {
      LeftsInRow(w, crlf, s, n - 1);
      var t := Play(w, crlf, s, Repeat([ESC, '[', 'D'], n - 1));
      PlayConcat(w, crlf, s, Repeat([ESC, '[', 'D'], n - 1), [ESC, '[', 'D']);
      One(w, crlf, t, 'D');
      OneLess(w, t.p);
    }
  }

  lemma OneLess(w: nat, p: nat)
    requires w > 0
    ensures p % w > 0 ==> (p - 1) / w == p / w
  {
    if p % w > 0 {
      assert p == (p / w) * w + p % w;
      InRow(w, p / w, p % w - 1);
    }
  }

  lemma OnlyLefts(n: nat)
    ensures Moves(0, 0, n, 0) == Repeat([ESC, '[', 'D'], n)
  {
  }

  lemma UpAndRights(n: nat)
    ensures Moves(1, 0, 0, n) == [ESC, '[', 'A'] + Repeat([ESC, '[', 'C'], n)
  {
    assert Repeat([ESC, '[', 'A'], 1) == [ESC, '[', 'A'] by { assert Repeat([ESC, '[', 'A'], 0) == []; }
  }

  lemma Rows(w: nat, Y: nat, u: nat)
    requires u <= Y
    ensures Y * w >= u * w
  {
    assert Y * w == u * w + (Y - u) * w;
  }

  lemma RowsMoved(w: nat, Y: nat, y: nat, X: nat)
    ensures Y * w + X - Excess(Y, y) * w + Excess(y, Y) * w == y * w + X
  {
    if Y >= y {
      assert Y * w == y * w + (Y - y) * w;
    } else {
      assert y * w == Y * w + (y - Y) * w;
    }
  }

  // ----- the ends of rows -----

  /** Writing n glyphs from cell a on, one row at a time, comes to the end of a row. */
  predicate Crosses(w: nat, a: nat, n: nat)
    requires w > 0
  {
    a / w < (a + n) / w
  }

  /** Writing them in one go ends at the end of a row. */
  predicate Stops(w: nat, a: nat, n: nat)
    requires w > 0
  {
    n > 0 && (a + n) % w == 0
  }

  lemma CrossesAt(w: nat, y: nat, x: nat, n: nat)
    requires w > 0 && x < w
    ensures Crosses(w, y * w + x, n) <==> x + n >= w
    ensures Stops(w, y * w + x, n) <==> n > 0 && (x + n) % w == 0
  {
    InRow(w, y, x);
    var (q, r) := ((x + n) / w, (x + n) % w);
    assert y * w + x + n == (y + q) * w + r by {
      assert x + n == q * w + r;
      assert (y + q) * w == y * w + q * w;
    }
    InRow(w, y + q, r);
  }

  lemma CrossesMore(w: nat, a: nat, n: nat, m: nat)
    requires w > 0
    ensures Crosses(w, a, n + m) <==> Crosses(w, a, n) || Crosses(w, a + n, m)
  {
    Quotients(w, a, a + n);
    Quotients(w, a + n, a + n + m);
  }

  lemma Quotients(w: nat, a: nat, b: nat)
    requires w > 0 && a <= b
    ensures a / w <= b / w
  {
    var d := b / w - a / w;
    assert a == (a / w) * w + a % w && b == (b / w) * w + b % w;
    assert (b / w) * w == (a / w) * w + d * w;
    assert d < 0 ==> d * w <= -(w as int);
  }

  /** Writing n glyphs from cell a on fills up their row and goes no further. */
  predicate Fills(w: nat, a: nat, n: nat)
    requires w > 0
  {
    n > 0 && a % w + n == w
  }

  /** One more glyph after text that stays in its row either stays in it too or fills it up, from whatever place in the
      text on it is written. */
  lemma FillsIff(w: nat, a: nat, len: nat, pos: nat)
    requires w > 0 && pos <= len && !Crosses(w, a, len)
    ensures Crosses(w, a + pos, len + 1 - pos) <==> Fills(w, a + pos, len + 1 - pos)
    ensures Crosses(w, a + pos, len + 1 - pos) <==> Crosses(w, a, len + 1)
    ensures Fills(w, a + pos, len + 1 - pos) ==> (a + len + 1) % w == 0
  {
    hide Crosses;
    var (y, x) := (a / w, a % w);
    assert a == y * w + x;
    CrossesAt(w, y, x, len);
    CrossesAt(w, y, x, len + 1);
    InRow(w, y, x + pos);
    CrossesAt(w, y, x + pos, len + 1 - pos);
    if x + len + 1 == w {
      assert a + len + 1 == (y + 1) * w + 0;
      InRow(w, y + 1, 0);
    }
  }

  /** Less text stays in the row as well. */
  lemma CrossesLess(w: nat, a: nat, n: nat, m: nat)
    requires w > 0 && m <= n
    ensures Crosses(w, a, m) ==> Crosses(w, a, n)
  {
    CrossesMore(w, a, m, n - m);
  }

  // ----- what a screen shows -----

  /** The text from the upper left corner on, and nothing else. */
  ghost predicate Shows(cells: map<nat, char>, text: string) {
    forall i: nat :: At(cells, i) == if i < |text| then text[i] else ' '
  }

  function Spaces(n: nat): (r: string)
    ensures |r| == n && Glyphs(r)
  {
    seq(n, _ => ' ')
  }

  /** Writing new text over the old from some place on, followed by enough spaces to cover what was there. */
  lemma Rewritten(cells: map<nat, char>, text: string, at: nat, t: string, pad: nat)
    requires Shows(cells, text) && at <= |text| <= at + |t| + pad
    ensures Shows(Overlay(cells, at, t + Spaces(pad)), text[..at] + t)
  {
    hide Overlay;
    forall i: nat
      ensures At(Overlay(cells, at, t + Spaces(pad)), i) == if i < |text[..at] + t| then (text[..at] + t)[i] else ' '
    {
      OverlayAt(cells, at, t + Spaces(pad), i);
    }
  }

  // ----- after a line feed that has kept the column -----

  /** Text up to the cell before end has filled its row, and the cursor is in the last column of the next row. Going back
      over n cells is right if and only if there is one to go back over. */
  lemma BackFromEdge(w: nat, crlf: bool, s: Screen, end: nat, n: nat)
    requires w > 1 && end > 0 && end % w == 0 && n < w
    requires s.esc == Text && !s.pending && s.p == end - 1 + w
    ensures end >= n
    ensures var t := Play(w, crlf, s, Path(w, end, end - n)); t == s.(p := t.p) && (t.p == end - n <==> n == 1)
    ensures n == 0 ==> Play(w, crlf, s, Path(w, end, end - n)) == s
  {
    hide Play, Repeat, Path, Moves;
    WayBack(w, end, n);
    if n == 0 {
      MovesAreWhole(w, crlf, s, 0, 0, 0, 0);
    } else {
      UpAndRights(w - n);
      PlayConcat(w, crlf, s, [ESC, '[', 'A'], Repeat([ESC, '[', 'C'], w - n));
      One(w, crlf, s, 'A');
      RightsAtEdge(w, crlf, s.(p := s.p - w), w - n);
    }
  }

  lemma WayBack(w: nat, end: nat, n: nat)
    requires w > 1 && end > 0 && end % w == 0 && n < w
    ensures end >= w && (end - 1) % w == w - 1
    ensures Path(w, end, end - n) == if n == 0 then Moves(0, 0, 0, 0) else Moves(1, 0, 0, w - n)
  {
    hide Moves;
    var y := end / w;
    Above(w, end);
    var above := (y - 1) * w;
    InRow(w, y, 0);
    InRow(w, y - 1, w - 1);
    assert end - 1 == above + (w - 1);
    if n > 0 {
      InRow(w, y - 1, w - n);
      assert end - n == above + (w - n);
    }
  }

  lemma Above(w: nat, end: nat)
    requires w > 0 && end > 0 && end % w == 0
    ensures var y := end / w; y > 0 && end == y * w + 0 && end == (y - 1) * w + w
  {
  }

  /** prompt fills its rows, and the line feed after it has kept the column: with the line and the way back to pos the
      screen comes out right only for a single space in two columns, before which the cursor stands. */
  lemma AfterFullPrompt(w: nat, crlf: bool, s: Screen, prompt: string, line: string, pos: nat)
    requires w > 1 && prompt != [] && |prompt| % w == 0 && |line| < w && pos <= |line| && Glyphs(line)
    requires s == Screen(s.cells, |prompt| - 1 + w, false, Text) && Shows(s.cells, prompt)
    ensures var t := Play(w, crlf, Play(w, crlf, s, line), Path(w, |prompt| + |line|, |prompt| + pos));
            (t.esc == Text && !t.pending && t.p == |prompt| + pos && Shows(t.cells, prompt + line)) <==> (w == 2 && line == " " && pos == 0)
  {
    hide Play, Repeat, Overlay, Shows, Path, Glyphs;
    var (p, l) := (|prompt|, |line|);
    BackInRow(w, p, l, pos);
    if l == 0 {
      RepeatNothing();
      PlayNothing(w, crlf, s);
      assert line == [];
    } else if l == 1 {
      PlayText(w, crlf, s, line);
      RowOf(w, p, 0);
      OneAfterFullPrompt(w, crlf, s, Play(w, crlf, s, line), prompt, line, pos);
    } else {
      MoreAfterFullPrompt(w, crlf, s, p, line, l - pos);
      RowOf(w, p, pos);
    }
  }

  lemma RowOf(w: nat, p: nat, x: nat)
    requires x < w && p % w == 0
    ensures (p + x) / w == p / w && (p + x) % w == x && (p + w + x) / w == p / w + 1 && (p + w + x) % w == x
  {
    assert p == (p / w) * w && p + w == (p / w + 1) * w;
    InRow(w, p / w, x);
    InRow(w, p / w + 1, x);
  }

  /** The way back within a row. */
  lemma BackInRow(w: nat, p: nat, l: nat, pos: nat)
    requires l < w && pos <= l && p % w == 0
    ensures Path(w, p + l, p + pos) == Repeat([ESC, '[', 'D'], l - pos)
  {
    hide Repeat;
    RowOf(w, p, l);
    RowOf(w, p, pos);
    OnlyLefts(l - pos);
  }

  /** The rest of a longer line is in the row below, and so is the cursor. */
  lemma MoreAfterFullPrompt(w: nat, crlf: bool, s: Screen, p: nat, line: string, back: nat)
    requires w > 1 && p > 0 && p % w == 0 && 2 <= |line| < w && Glyphs(line)
    requires s == Screen(s.cells, p - 1 + w, false, Text)
    ensures Play(w, crlf, Play(w, crlf, s, line), Repeat([ESC, '[', 'D'], back)).p / w == p / w + 1
  {
    hide Play, Repeat, Overlay, Glyphs;
    PlayText(w, crlf, s, line);
    RowOf(w, p, |line| - 1);
    LeftsInRow(w, crlf, Play(w, crlf, s, line), back);
  }

  lemma OneAfterFullPrompt(w: nat, crlf: bool, s: Screen, s1: Screen, prompt: string, line: string, pos: nat)
    requires w > 1 && |prompt| % w == 0 && |line| == 1 && pos <= 1 && Shows(s.cells, prompt)
    requires s1 == Screen(Overlay(s.cells, |prompt| + w - 1, line), |prompt| + w - 1, true, Text)
    ensures var t := Play(w, crlf, s1, Repeat([ESC, '[', 'D'], 1 - pos));
            (t.esc == Text && !t.pending && t.p == |prompt| + pos && Shows(t.cells, prompt + line)) <==> (w == 2 && line == " " && pos == 0)
  {
    hide Play, Overlay;
    var p := |prompt|;
    var y := p / w;
    assert p == y * w;
    InRow(w, y, w - 1);
    PlayNothing(w, crlf, s1);
    if pos == 0 {
      assert Repeat([ESC, '[', 'D'], 1) == [ESC, '[', 'D'] by { assert Repeat([ESC, '[', 'D'], 0) == []; }
      One(w, crlf, s1, 'D');
      if w == 2 {
        OverlayAt(s.cells, p + 1, line, p);
        OverlayAt(s.cells, p + 1, line, p + 1);
        if line == " " {
          forall i: nat ensures At(s1.cells, i) == if i < |prompt + line| then (prompt + line)[i] else ' ' {
            OverlayAt(s.cells, p + 1, line, i);
          }
        } else {
          assert (prompt + line)[p] == line[0];
          assert line[0] == ' ' ==> line == " ";
        }
      }
    }
  }
}
