/** What the keys of the line editor mean (terminal.go: handleKey): a text before and a text after the cursor, and a
    walk through the history. */
module Editor {
  import opened Results
  import History

  const MAX_LINE_LENGTH := 4096

  datatype Key =
    | Backspace | AltLeft | AltRight | Left | Right | Home | End | Up | Down | Enter
    | DeleteWord | DeleteLine | CtrlD | CtrlU | ClearScreen | Rune(c: char)

  /** index is -1 while the user's own line is being edited, and pending is that line while an older one is shown. */
  datatype State = State(before: string, after: string, index: int, pending: string)

  function Text(s: State): string {
    s.before + s.after
  }

  predicate IsPrintable(c: char) {
    c >= ' '
  }

  // ----- words -----

  /** From i down to the last character that is not a space, or to 0. */
  function SkipSpacesLeft(s: string, i: nat): (r: nat)
    requires i < |s|
    ensures r <= i && (r == 0 || s[r] != ' ')
  {
    if i > 0 && s[i] == ' ' then SkipSpacesLeft(s, i - 1) else i
  }

  /** From i down to the place after a space; a space in place 0 counts as part of the word. */
  function SkipWordLeft(s: string, i: nat): (r: nat)
    requires i < |s|
    ensures r <= i + 1 && (i == 0 || s[i] != ' ' ==> r <= i)
  {
    if i == 0 then 0 else if s[i] == ' ' then i + 1 else SkipWordLeft(s, i - 1)
  }

  /** Where the word to the left of the end of s begins. */
  function WordStart(s: string): (r: nat)
    ensures r <= |s| && (s != [] ==> r < |s|)
  {
    if s == [] then 0 else SkipWordLeft(s, SkipSpacesLeft(s, |s| - 1))
  }

  function SkipWordRight(s: string): (r: nat)
    ensures r <= |s|
  {
    if s == [] || s[0] == ' ' then 0 else 1 + SkipWordRight(s[1..])
  }

  function SkipSpacesRight(s: string): (r: nat)
    ensures r <= |s|
  {
    if s == [] || s[0] != ' ' then 0 else 1 + SkipSpacesRight(s[1..])
  }

  /** How far the next word is from the start of s. */
  function WordEnd(s: string): (r: nat)
    ensures r <= |s|
  {
    SkipWordRight(s) + SkipSpacesRight(s[SkipWordRight(s)..])
  }

  /** Between the start and q lies one word, and after it only spaces. */
  predicate IsLastWord(s: string, start: nat, q: nat) {
    && start <= q < |s|
    && (start == 0 || s[start - 1] == ' ')
    && (forall j | start <= j <= q && j > 0 :: s[j] != ' ')
    && (forall j | q < j < |s| :: s[j] == ' ')
  }

  lemma {:induction false} SpacesLeftMeans(s: string, i: nat)
    requires i < |s|
    ensures var q := SkipSpacesLeft(s, i); (q == 0 || s[q] != ' ') && forall j | q < j <= i :: s[j] == ' '
  {
    if i > 0 && s[i] == ' ' {
      SpacesLeftMeans(s, i - 1);
    }
  }

  lemma {:induction false} WordLeftMeans(s: string, i: nat)
    requires i < |s|
    ensures var r := SkipWordLeft(s, i);
            (r == 0 || s[r - 1] == ' ') && (forall j | r <= j <= i && j > 0 :: s[j] != ' ') && (i == 0 || s[i] != ' ' ==> r <= i)
  {
    if i > 0 && s[i] != ' ' {
      WordLeftMeans(s, i - 1);
    }
  }

  lemma WordStartMeans(s: string)
    requires s != []
    ensures IsLastWord(s, WordStart(s), SkipSpacesLeft(s, |s| - 1))
  {
    SpacesLeftMeans(s, |s| - 1);
    WordLeftMeans(s, SkipSpacesLeft(s, |s| - 1));
  }

  lemma {:induction false} WordRightMeans(s: string)
    ensures var r := SkipWordRight(s); (forall j | 0 <= j < r :: s[j] != ' ') && (r < |s| ==> s[r] == ' ')
    ensures var r := SkipSpacesRight(s); (forall j | 0 <= j < r :: s[j] == ' ') && (r < |s| ==> s[r] != ' ')
  {
    if s != [] {
      WordRightMeans(s[1..]);
    }
  }

  /** Before the place that WordEnd finds there is first no space and then nothing else, and it is not followed by a space. */
  lemma WordEndMeans(s: string) returns (q: nat)
    ensures q <= WordEnd(s) <= |s|
    ensures (forall j | 0 <= j < q :: s[j] != ' ') && (forall j | q <= j < WordEnd(s) :: s[j] == ' ')
    ensures (WordEnd(s) < |s| ==> s[WordEnd(s)] != ' ') && (q < |s| ==> s[q] == ' ')
  {
    q := SkipWordRight(s);
    WordRightMeans(s);
    WordRightMeans(s[q..]);
  }

  // ----- keys -----

  function Show(s: State, line: string, index: int, pending: string): State {
    State(line, "", index, pending)
  }

  function UpKey(s: State, log: seq<string>): (r: State)
    requires s.index >= -1
    ensures r.index >= -1
  {
    match History.NthPrevious(log, s.index + 1)
    case None => s
    case Some(entry) => Show(s, entry, s.index + 1, if s.index == -1 then Text(s) else s.pending)
  }

  function DownKey(s: State, log: seq<string>): (r: State)
    requires s.index >= -1
    ensures r.index >= -1
  {
    if s.index == -1 then s
    else if s.index == 0 then Show(s, s.pending, -1, s.pending)
    else
      match History.NthPrevious(log, s.index - 1)
      case None => s
      case Some(entry) => Show(s, entry, s.index - 1, s.pending)
  }

  /** One key: the new state, and the line if it has been entered. */
  function Press(s: State, log: seq<string>, key: Key): (r: (State, Option<string>))
    requires s.index >= -1
    ensures r.0.index >= -1
  {
    var (b, a) := (s.before, s.after);
    match key
    case Backspace => (if b == [] then s else s.(before := b[..|b| - 1]), None)
    case AltLeft => (s.(before := b[..WordStart(b)], after := b[WordStart(b)..] + a), None)
    case AltRight => (s.(before := b + a[..WordEnd(a)], after := a[WordEnd(a)..]), None)
    case Left => (if b == [] then s else s.(before := b[..|b| - 1], after := [b[|b| - 1]] + a), None)
    case Right => (if a == [] then s else s.(before := b + [a[0]], after := a[1..]), None)
    case Home => (s.(before := "", after := b + a), None)
    case End => (s.(before := b + a, after := ""), None)
    case Up => (UpKey(s, log), None)
    case Down => (DownKey(s, log), None)
    case Enter => (s.(before := "", after := ""), Some(b + a))
    case DeleteWord => (s.(before := b[..WordStart(b)]), None)
    case DeleteLine => (s.(after := ""), None)
    case CtrlD => (if a == [] then s else s.(after := a[1..]), None)
    case CtrlU => (s.(before := ""), None)
    case ClearScreen => (s, None)
    case Rune(c) => (if IsPrintable(c) && |b| + |a| != MAX_LINE_LENGTH then s.(before := b + [c]) else s, None)
  }

  function PressAll(s: State, log: seq<string>, keys: seq<Key>): State
    requires s.index >= -1
    decreases |keys|
  {
    if keys == [] then s else PressAll(Press(s, log, keys[0]).0, log, keys[1..])
  }

  lemma Moved(a: string, b: string, c: string)
    ensures a + (b + c) == (a + b) + c
  {
  }

  lemma Cut(a: string, i: nat)
    requires i <= |a|
    ensures a[..i] + a[i..] == a
  {
  }

  /** The keys that only move the cursor leave the text alone. */
  lemma MovesKeepText(s: State, log: seq<string>, key: Key)
    requires s.index >= -1 && key in {AltLeft, AltRight, Left, Right, Home, End, ClearScreen}
    ensures Text(Press(s, log, key).0) == Text(s)
  {
    hide WordStart, WordEnd;
    var (b, a) := (s.before, s.after);
    match key {
      case AltLeft => Cut(b, WordStart(b)); Moved(b[..WordStart(b)], b[WordStart(b)..], a);
      case AltRight => Cut(a, WordEnd(a)); Moved(b, a[..WordEnd(a)], a[WordEnd(a)..]);
      case Left => if b != [] { Cut(b, |b| - 1); Moved(b[..|b| - 1], [b[|b| - 1]], a); }
      case Right => if a != [] { Cut(a, 1); Moved(b, [a[0]], a[1..]); }
      case _ =>
    }
  }

  /** The same text with the cursor somewhere else. */
  function MoveTo(s: State, to: nat): State
    requires to <= |Text(s)|
  {
    s.(before := Text(s)[..to], after := Text(s)[to..])
  }

  /** Where a key that moves the cursor takes it. */
  function Target(s: State, key: Key): (r: nat)
    ensures r <= |Text(s)|
  {
    var (b, a) := (s.before, s.after);
    match key
    case AltLeft => WordStart(b)
    case AltRight => |b| + WordEnd(a)
    case Left => if b == [] then 0 else |b| - 1
    case Right => if a == [] then |b| else |b| + 1
    case Home => 0
    case End => |b| + |a|
    case _ => |b|
  }

  lemma MovesTo(s: State, log: seq<string>, key: Key)
    requires s.index >= -1 && (key == AltLeft || key == AltRight || key == Left || key == Right || key == Home || key == End)
    ensures Press(s, log, key).0 == MoveTo(s, Target(s, key))
  {
    hide WordStart, WordEnd, UpKey, DownKey;
    CutText(s.before, s.after, Target(s, key));
  }

  lemma CutText(b: string, a: string, to: nat)
    requires to <= |b| + |a|
    ensures to <= |b| ==> (b + a)[..to] == b[..to] && (b + a)[to..] == b[to..] + a
    ensures to >= |b| ==> (b + a)[..to] == b + a[..to - |b|] && (b + a)[to..] == a[to - |b|..]
  {
  }

  lemma Two(s: State, log: seq<string>, k: Key, l: Key)
    requires s.index >= -1
    ensures PressAll(s, log, [k, l]) == Press(Press(s, log, k).0, log, l).0
    ensures PressAll(s, log, [l]) == Press(s, log, l).0
  {
    hide Press;
    var t := Press(s, log, k).0;
    assert [k, l][1..] == [l] && [l][1..] == [];
    assert PressAll(t, log, [l]) == PressAll(Press(t, log, l).0, log, []);
    assert PressAll(s, log, [l]) == PressAll(Press(s, log, l).0, log, []);
  }

  /** What one key does another one undoes. */
  lemma UndoTyping(s: State, log: seq<string>, c: char)
    requires s.index >= -1 && IsPrintable(c) && |Text(s)| != MAX_LINE_LENGTH
    ensures PressAll(s, log, [Rune(c), Backspace]) == s
  {
    hide PressAll;
    Two(s, log, Rune(c), Backspace);
    assert (s.before + [c])[..|s.before|] == s.before;
  }

  lemma UndoMoves(s: State, log: seq<string>)
    requires s.index >= -1
    ensures s.before != [] ==> PressAll(s, log, [Left, Right]) == s && PressAll(s, log, [Left, CtrlD]) == PressAll(s, log, [Backspace])
    ensures s.after != [] ==> PressAll(s, log, [Right, Left]) == s && PressAll(s, log, [Right, Backspace]) == PressAll(s, log, [CtrlD])
  {
    hide PressAll;
    Two(s, log, Left, Right);
    Two(s, log, Left, CtrlD);
    Two(s, log, Right, Left);
    Two(s, log, Right, Backspace);
    if s.before != [] {
      var n := |s.before| - 1;
      assert ([s.before[n]] + s.after)[1..] == s.after;
      Cut(s.before, n);
    }
    if s.after != [] {
      assert (s.before + [s.after[0]])[..|s.before|] == s.before;
      Cut(s.after, 1);
    }
  }

  function Backspaces(n: nat): seq<Key> {
    seq(n, _ => Backspace)
  }

  /** Deleting a word, or everything to the left, is a number of backspaces. */
  lemma {:induction false} BackspacesDelete(s: State, log: seq<string>, n: nat)
    requires s.index >= -1 && n <= |s.before|
    ensures PressAll(s, log, Backspaces(n)) == s.(before := s.before[..|s.before| - n])
    decreases n
  {
    if n > 0 {
      var s' := Press(s, log, Backspace).0;
      assert Backspaces(n)[1..] == Backspaces(n - 1);
      BackspacesDelete(s', log, n - 1);
      assert s'.before[..|s'.before| - (n - 1)] == s.before[..|s.before| - n];
    }
  }

  lemma WordAndLineDeletion(s: State, log: seq<string>)
    requires s.index >= -1
    ensures Press(s, log, DeleteWord).0 == PressAll(s, log, Backspaces(|s.before| - WordStart(s.before)))
    ensures Press(s, log, CtrlU).0 == PressAll(s, log, Backspaces(|s.before|))
  {
    BackspacesDelete(s, log, |s.before| - WordStart(s.before));
    BackspacesDelete(s, log, |s.before|);
  }

  /** The state after n times Up, from the user's own line. */
  function Ups(s: State, log: seq<string>, n: nat): (r: State)
    requires s.index == -1
    ensures r.index >= -1
  {
    if n == 0 then s else UpKey(Ups(s, log, n - 1), log)
  }

  function Downs(s: State, log: seq<string>, n: nat): (r: State)
    requires s.index >= -1
    ensures r.index >= -1
  {
    if n == 0 then s else DownKey(Downs(s, log, n - 1), log)
  }

  /** Going up n times shows the n-th previous line, as far as the history reaches. */
  lemma {:induction false} UpsShow(s: State, log: seq<string>, n: nat)
    requires s.index == -1 && n <= History.Kept(log)
    ensures var r := Ups(s, log, n);
            r.index == n - 1 && (n > 0 ==> r == State(History.NthPrevious(log, n - 1).value, "", n - 1, Text(s)))
  {
    if n > 0 {
      UpsShow(s, log, n - 1);
    }
  }

  lemma {:induction false} DownsShow(s: State, log: seq<string>, n: nat, k: nat)
    requires s.index == n - 1 && k <= n <= History.Kept(log) && 0 < n
    ensures var r := Downs(s, log, k);
            r.index == n - 1 - k && (k > 0 ==> r == State(if k == n then s.pending else History.NthPrevious(log, n - 1 - k).value, "", n - 1 - k, s.pending))
  {
    if k > 0 {
      DownsShow(s, log, n, k - 1);
    }
  }

  /** And going down as often brings the unfinished line back, with the cursor at its end. */
  lemma UpsThenDowns(s: State, log: seq<string>, n: nat)
    requires s.index == -1 && 0 < n <= History.Kept(log)
    ensures Downs(Ups(s, log, n), log, n) == State(Text(s), "", -1, Text(s))
  {
    UpsShow(s, log, n);
    DownsShow(Ups(s, log, n), log, n, n);
  }

  /** A character goes in before the cursor exactly if it is printable and there is room; the rest of the line stays after it. */
  lemma TypingIff(s: State, log: seq<string>, c: char)
    requires s.index >= -1
    ensures Press(s, log, Rune(c)).0 ==
            if c >= ' ' && |Text(s)| != 4096 then State(s.before + [c], s.after, s.index, s.pending) else s
    ensures Press(s, log, Rune(c)).1 == None
  {
  }

  function Deletes(n: nat): seq<Key> {
    seq(n, _ => CtrlD)
  }

  lemma {:induction false} DeletesDelete(s: State, log: seq<string>, n: nat)
    requires s.index >= -1 && n <= |s.after|
    ensures PressAll(s, log, Deletes(n)) == s.(after := s.after[n..])
    decreases n
  {
    if n > 0 {
      var s' := Press(s, log, CtrlD).0;
      assert Deletes(n)[1..] == Deletes(n - 1);
      DeletesDelete(s', log, n - 1);
      assert s'.after[n - 1..] == s.after[n..];
    }
  }

  /** Deleting to the end of the line is a number of deletes; then and after deleting to its start the line is empty. */
  lemma DeletingBothWays(s: State, log: seq<string>)
    requires s.index >= -1
    ensures Press(s, log, DeleteLine).0 == PressAll(s, log, Deletes(|s.after|))
    ensures Text(PressAll(s, log, [DeleteLine, CtrlU])) == ""
  {
    DeletesDelete(s, log, |s.after|);
    Two(s, log, DeleteLine, CtrlU);
  }

  /** Up does nothing beyond the oldest line that is kept, and Down nothing on the user's own line. */
  lemma HistoryEnds(s: State, log: seq<string>)
    requires s.index >= -1
    ensures Press(s, log, Up).0 == s <==> s.index + 1 >= |log| || s.index + 1 >= 100
    ensures s.index == -1 ==> Press(s, log, Down).0 == s
  {
  }
}
