/** Move strings: how the generators render a move in the two output formats,
    and how `apply_move` reads one back (the first arrow it finds, then the
    marble triples before it, matched by `\((-?\d+), (-?\d+), (\w)\)`). */
module MoveText {
  import opened Hex
  import opened Text
  import opened Directions
  import opened MoveRules

  /** The newer generators (`src/moves.py`) and the older ones (`moves.py`)
      differ only in how pushes and side-steps are written. */
  datatype Format = Current | Legacy

  /** `f"({x}, {y}, {colour})"`. */
  function MarbleText(c: Cell, colour: char): string {
    "(" + IntToString(c.x) + ", " + IntToString(c.y) + ", " + [colour] + ")"
  }

  function MarbleTexts(cells: seq<Cell>, colour: char): (ts: seq<string>)
    ensures |ts| == |cells|
    ensures forall i :: 0 <= i < |cells| ==> ts[i] == MarbleText(cells[i], colour)
  {
    seq(|cells|, i requires 0 <= i < |cells| => MarbleText(cells[i], colour))
  }

  /** A group written `'-'.join(...)`, all in one colour. */
  function GroupText(cells: seq<Cell>, colour: char): string {
    JoinWith("-", MarbleTexts(cells, colour))
  }

  /** The pushed run of the newer format, each cell with its own value. */
  function RunText(board: Board, cells: seq<Cell>): string
    requires forall i :: 0 <= i < |cells| ==> cells[i] in board
  {
    JoinWith("-", RunTexts(board, cells))
  }

  function RunTexts(board: Board, cells: seq<Cell>): (ts: seq<string>)
    requires forall i :: 0 <= i < |cells| ==> cells[i] in board
    ensures |ts| == |cells|
    ensures forall i :: 0 <= i < |cells| ==> ts[i] == MarbleText(cells[i], board[cells[i]])
  {
    seq(|cells|, i requires 0 <= i < |cells| => MarbleText(cells[i], board[cells[i]]))
  }

  /** What follows the arrow of a push in the newer format: the run, each cell
      with its own value. */
  function CurrentPushTail(board: Board, run: seq<Cell>): string
    requires forall i :: 0 <= i < |run| ==> run[i] in board
  {
    "p" + RunText(board, run)
  }

  /** What follows the arrow of a push in the older format: the first opposing
      cell in the mover's colour, and a space. */
  function LegacyPushTail(b: Cell, player: char): string {
    "p" + MarbleText(b, player) + " "
  }

  /** The destinations of a side-step. */
  function Shifted(cells: seq<Cell>, d: Dir): (r: seq<Cell>)
    ensures |r| == |cells| && forall i :: 0 <= i < |cells| ==> r[i] == Step(cells[i], d, 1)
  {
    seq(|cells|, i requires 0 <= i < |cells| => Step(cells[i], d, 1))
  }

  /** The opposing run of a legal push lies on the board. */
  lemma RunOnBoard(board: Board, player: char, c: Cell, d: Dir)
    requires LegalPush(board, player, c, d)
    ensures var r := OpponentRun(board, player, Beyond(board, player, c, d), d);
      forall i :: 0 <= i < |r| ==> Opposing(board, player, r[i])
  {
  }

  /** The string a generator appends for a legal move. */
  function Render(board: Board, player: char, format: Format, m: Move): string
    requires Legal(board, player, m)
  {
    match m
    case Single(c, d) =>
      MarbleText(c, player) + [Symbol(d)] + MarbleText(Step(c, d, 1), player)
    case Inline(c, d) =>
      GroupText(Group(board, player, c, d), player) + [Symbol(d)] + MarbleText(Beyond(board, player, c, d), player)
    case Push(c, d) =>
      var g := Group(board, player, c, d);
      var b := Beyond(board, player, c, d);
      if format == Current then
        RunOnBoard(board, player, c, d);
        GroupText(g, player) + [Symbol(d)] + CurrentPushTail(board, OpponentRun(board, player, b, d))
      else
        GroupText(g, player) + [Symbol(d)] + LegacyPushTail(b, player)
    case SideStep(c, a, s) =>
      var g := Group(board, player, c, a);
      if format == Current then
        GroupText(g, player) + [Symbol(s)] + "s" + GroupText(Shifted(g, s), player)
      else
        JoinWith(" + ", PairTexts(g, s, player))
  }

  // ---------------------------------------------------------------------------
  // Reading a move string back

  /** `\w` over ASCII. */
  predicate IsWordChar(ch: char) {
    ('a' <= ch <= 'z') || ('A' <= ch <= 'Z') || IsDigit(ch) || ch == '_'
  }

  /** The number of leading decimal digits. */
  function DigitRun(s: string): (n: nat)
    ensures n <= |s| && AllDigits(s[..n]) && (n < |s| ==> !IsDigit(s[n]))
  {
    if s == [] || !IsDigit(s[0]) then 0
    else
      var n := 1 + DigitRun(s[1..]);
      assert s[..n] == [s[0]] + s[1..][..n - 1];
      n
  }

  /** `-?\d+` at the front of `s`, read with `int()`, and what follows it. */
  function MatchInt(s: string): (r: Option<(int, string)>)
    ensures r.Some? ==> |r.value.1| < |s| && r.value.1 == s[|s| - |r.value.1|..]
  {
    var negative := |s| > 0 && s[0] == '-';
    var t := if negative then s[1..] else s;
    var n := DigitRun(t);
    if n == 0 then None
    else Some(((if negative then -1 else 1) * DigitsValue(t[..n]), t[n..]))
  }

  /** The marble pattern at the front of `s`, and what follows the match. */
  function MatchMarble(s: string): (r: Option<(Marble, string)>)
    ensures r.Some? ==> |r.value.1| < |s|
  {
    if |s| == 0 || s[0] != '(' then None
    else
      match MatchInt(s[1..])
      case None => None
      case Some((x, r1)) =>
        if |r1| < 2 || r1[..2] != ", " then None
        else
          match MatchInt(r1[2..])
          case None => None
          case Some((y, r2)) =>
            if |r2| < 4 || r2[..2] != ", " || !IsWordChar(r2[2]) || r2[3] != ')' then None
            else Some((Marble(x, y, r2[2]), r2[4..]))
  }

  /** `re.findall`: every non-overlapping match, scanning left to right. */
  function FindMarbles(s: string): seq<Marble>
    decreases |s|
  {
    if s == [] then []
    else
      match MatchMarble(s)
      case Some((m, rest)) => [m] + FindMarbles(rest)
      case None => FindMarbles(s[1..])
  }

  /** The first key of `DIRECTIONS`, from position `i` on, whose arrow occurs in `s`. */
  function FirstDirectionFrom(s: string, i: nat): Option<Dir>
    decreases 6 - i
  {
    if i >= 6 then None
    else if Symbol(AllDirections[i]) in s then Some(AllDirections[i])
    else FirstDirectionFrom(s, i + 1)
  }

  /** `next((d for d in DIRECTIONS if d in move_str), None)`. */
  function FirstDirection(s: string): Option<Dir> {
    FirstDirectionFrom(s, 0)
  }

  /** The text before the first occurrence of the arrow: `move_str.split(arrow)[0]`. */
  function PartBefore(s: string, d: Dir): (p: string)
    ensures p == s[..IndexOf(s, Symbol(d))]
  {
    Split(s, Symbol(d))[0]
  }

  /** The marbles `apply_move` extracts: the triples before the direction's arrow. */
  function MovingMarbles(s: string, d: Dir): seq<Marble> {
    FindMarbles(PartBefore(s, d))
  }

  // ---------------------------------------------------------------------------
  // Round trips

  /** A string without arrows. */
  predicate Plain(s: string) {
    forall i :: 0 <= i < |s| ==> !IsSymbol(s[i])
  }

  /** The direction found is the first in `DIRECTIONS` order whose arrow occurs;
      there is none exactly when the string holds no arrow. */
  lemma {:induction false} FirstDirectionSpec(s: string, i: nat)
    requires i <= 6
    ensures FirstDirectionFrom(s, i).None? <==> forall k :: i <= k < 6 ==> Symbol(AllDirections[k]) !in s
    ensures FirstDirectionFrom(s, i).Some? ==>
      var d := FirstDirectionFrom(s, i).value;
      Symbol(d) in s && i <= Index(d) && forall k :: i <= k < Index(d) ==> Symbol(AllDirections[k]) !in s
    decreases 6 - i
  {
    if i < 6 && Symbol(AllDirections[i]) !in s {
      FirstDirectionSpec(s, i + 1);
    }
  }

  /** A string raises `ValueError` exactly when it holds no arrow (a string with
      one arrow is read along it: `FindArrow`). */
  lemma FirstDirectionOfPlain(s: string)
    ensures FirstDirection(s).None? <==> Plain(s)
  {
    FirstDirectionSpec(s, 0);
    if !Plain(s) {
      var i :| 0 <= i < |s| && IsSymbol(s[i]);
      var d: Dir :| Symbol(d) == s[i];
      assert AllDirections[Index(d)] == d;
    }
  }

  /** The arrow between two arrow-free texts is the one `apply_move` finds, and
      the text before it is the first text. */
  lemma FindArrow(prefix: string, d: Dir, suffix: string)
    requires Plain(prefix) && Plain(suffix)
    ensures FirstDirection(prefix + [Symbol(d)] + suffix) == Some(d)
    ensures PartBefore(prefix + [Symbol(d)] + suffix, d) == prefix
  {
    var s := prefix + [Symbol(d)] + suffix;
    assert s[|prefix|] == Symbol(d);
    FirstDirectionSpec(s, 0);
    assert AllDirections[Index(d)] == d;
    var e := FirstDirection(s).value;
    var i :| 0 <= i < |s| && s[i] == Symbol(e);
    if i < |prefix| {
      assert s[i] == prefix[i];
    }
    SymbolInjective(d, e);
    IndexOfAfter(prefix, Symbol(d), suffix);
  }

  /** The characters `str()` writes for an integer. */
  lemma IntToStringChars(n: int)
    ensures forall i :: 0 <= i < |IntToString(n)| ==> IntToString(n)[i] == '-' || IsDigit(IntToString(n)[i])
    ensures IsDigit(IntToString(n)[|IntToString(n)| - 1])
  {
  }

  lemma {:induction false} DigitRunOf(a: string, rest: string)
    requires AllDigits(a)
    requires rest == [] || !IsDigit(rest[0])
    ensures DigitRun(a + rest) == |a|
    decreases |a|
  {
    if a != [] {
      assert (a + rest)[1..] == a[1..] + rest;
      DigitRunOf(a[1..], rest);
    } else {
      assert a + rest == rest;
    }
  }

  /** `int()` reads back what `str()` wrote, leaving what follows. */
  lemma MatchIntText(n: int, rest: string)
    requires rest == [] || !IsDigit(rest[0])
    ensures MatchInt(IntToString(n) + rest) == Some((n, rest))
  {
    var k: nat := if n < 0 then -n else n;
    var digits := NatToString(k);
    DigitRunOf(digits, rest);
    NatToStringRoundTrip(k);
    assert (digits + rest)[..|digits|] == digits;
    assert (digits + rest)[|digits|..] == rest;
    if n < 0 {
      assert ("-" + digits + rest)[1..] == digits + rest;
    }
  }

  /** The marble pattern matches a rendered triple exactly, whatever follows it. */
  lemma MatchMarbleText(c: Cell, colour: char, rest: string)
    requires IsWordChar(colour)
    ensures MatchMarble(MarbleText(c, colour) + rest) == Some((Marble(c.x, c.y, colour), rest))
  {
    var xs, ys := IntToString(c.x), IntToString(c.y);
    var tail := TripleTail(colour, rest);
    var r1 := ", " + ys + tail;
    MatchIntText(c.y, tail);
    MatchIntText(c.x, r1);
    TripleShape(xs, ys, colour, rest);
    MatchTriple(xs, r1, c.x, ys, tail, c.y, colour, rest);
  }

  /** What follows the second numeral of a triple. */
  function TripleTail(colour: char, rest: string): string {
    ", " + [colour] + ")" + rest
  }

  lemma TripleShape(xs: string, ys: string, colour: char, rest: string)
    ensures "(" + xs + ", " + ys + ", " + [colour] + ")" + rest == "(" + (xs + (", " + ys + TripleTail(colour, rest)))
  {
  }

  /** The marble pattern against a triple whose two numerals read back as `x`
      and `y`. */
  lemma MatchTriple(xs: string, r1: string, x: int, ys: string, tail: string, y: int, colour: char, rest: string)
    requires IsWordChar(colour)
    requires r1 == ", " + ys + tail && tail == TripleTail(colour, rest)
    requires MatchInt(xs + r1) == Some((x, r1))
    requires MatchInt(ys + tail) == Some((y, tail))
    ensures MatchMarble("(" + (xs + r1)) == Some((Marble(x, y, colour), rest))
  {
    TailFacts(colour, rest);
    SeparatorFacts(ys, tail);
    OpenFacts(xs + r1);
    MatchMarbleSteps("(" + (xs + r1), x, r1, y, tail);
  }

  lemma TailFacts(colour: char, rest: string)
    ensures var tail := TripleTail(colour, rest);
      |tail| >= 4 && tail[..2] == ", " && tail[2] == colour && tail[3] == ')' && tail[4..] == rest
  {
  }

  lemma SeparatorFacts(ys: string, tail: string)
    ensures |", " + ys + tail| >= 2 && (", " + ys + tail)[..2] == ", " && (", " + ys + tail)[2..] == ys + tail
  {
  }

  lemma OpenFacts(t: string)
    ensures |"(" + t| > 0 && ("(" + t)[0] == '(' && ("(" + t)[1..] == t
  {
  }

  lemma MatchMarbleSteps(s: string, x: int, r1: string, y: int, r2: string)
    requires |s| > 0 && s[0] == '('
    requires MatchInt(s[1..]) == Some((x, r1))
    requires |r1| >= 2 && r1[..2] == ", "
    requires MatchInt(r1[2..]) == Some((y, r2))
    requires |r2| >= 4 && r2[..2] == ", " && IsWordChar(r2[2]) && r2[3] == ')'
    ensures MatchMarble(s) == Some((Marble(x, y, r2[2]), r2[4..]))
  {
  }

  /** A rendered triple holds no arrow. */
  lemma MarbleTextPlain(c: Cell, colour: char)
    requires IsWordChar(colour)
    ensures Plain(MarbleText(c, colour))
  {
    IntToStringChars(c.x);
    IntToStringChars(c.y);
    var t := MarbleText(c, colour);
    var xs := IntToString(c.x);
    var ys := IntToString(c.y);
    forall i | 0 <= i < |t| ensures !IsSymbol(t[i]) {
      if 1 <= i < 1 + |xs| {
        assert t[i] == xs[i - 1];
      } else if 3 + |xs| <= i < 3 + |xs| + |ys| {
        assert t[i] == ys[i - 3 - |xs|];
      }
    }
  }

  /** A rendered group holds no arrow. */
  lemma GroupTextPlain(cells: seq<Cell>, colour: char)
    requires IsWordChar(colour)
    ensures Plain(GroupText(cells, colour))
  {
    var ts := MarbleTexts(cells, colour);
    forall k | 0 <= k < |ts| ensures Plain(ts[k]) {
      MarbleTextPlain(cells[k], colour);
    }
    JoinWithAll("-", ts, ch => !IsSymbol(ch));
  }

  /** The triples of a group, in order. */
  function MarblesOf(cells: seq<Cell>, colour: char): (ms: seq<Marble>)
    ensures |ms| == |cells|
    ensures forall i :: 0 <= i < |cells| ==> ms[i] == Marble(cells[i].x, cells[i].y, colour) && ms[i].At() == cells[i]
  {
    seq(|cells|, i requires 0 <= i < |cells| => Marble(cells[i].x, cells[i].y, colour))
  }

  /** `re.findall` recovers every triple of a rendered group, in order. */
  lemma {:induction false} FindGroupText(cells: seq<Cell>, colour: char)
    requires IsWordChar(colour)
    ensures FindMarbles(GroupText(cells, colour)) == MarblesOf(cells, colour)
    decreases |cells|
  {
    if |cells| == 1 {
      FindAfterMarble(cells[0], colour, "");
      assert GroupText(cells, colour) == MarbleText(cells[0], colour) + "";
    } else if |cells| > 1 {
      MarbleTextsCons(cells, colour);
      FindJoinedMarble(cells[0], colour, MarbleTexts(cells[1..], colour));
      FindGroupText(cells[1..], colour);
      MarblesOfCons(cells, colour);
    }
  }

  lemma MarblesOfCons(cells: seq<Cell>, colour: char)
    requires |cells| >= 1
    ensures MarblesOf(cells, colour) == [Marble(cells[0].x, cells[0].y, colour)] + MarblesOf(cells[1..], colour)
  {
    var a := MarblesOf(cells, colour);
    var b := [Marble(cells[0].x, cells[0].y, colour)] + MarblesOf(cells[1..], colour);
    forall i | 0 <= i < |a| ensures a[i] == b[i] {
      if i > 0 {
        assert cells[1..][i - 1] == cells[i];
      }
    }
  }

  lemma MarbleTextsCons(cells: seq<Cell>, colour: char)
    requires |cells| >= 1
    ensures MarbleTexts(cells, colour) == [MarbleText(cells[0], colour)] + MarbleTexts(cells[1..], colour)
  {
    var a := MarbleTexts(cells, colour);
    var b := [MarbleText(cells[0], colour)] + MarbleTexts(cells[1..], colour);
    forall i | 0 <= i < |a| ensures a[i] == b[i] {
      if i > 0 {
        assert cells[1..][i - 1] == cells[i];
      }
    }
  }

  /** Text without an opening parenthesis contributes no match. */
  lemma {:induction false} SkipText(x: string, rest: string)
    requires '(' !in x
    ensures FindMarbles(x + rest) == FindMarbles(rest)
    decreases |x|
  {
    if x != [] {
      assert (x + rest)[1..] == x[1..] + rest;
      SkipText(x[1..], rest);
    } else {
      assert x + rest == rest;
    }
  }

  /** A rendered triple is matched as itself, and scanning goes on after it. */
  lemma FindAfterMarble(c: Cell, colour: char, rest: string)
    requires IsWordChar(colour)
    ensures FindMarbles(MarbleText(c, colour) + rest) == [Marble(c.x, c.y, colour)] + FindMarbles(rest)
  {
    MatchMarbleText(c, colour, rest);
  }

  /** The text after the first occurrence of `ch` (empty when there is none). */
  function AfterFirst(s: string, ch: char): string {
    if IndexOf(s, ch) < |s| then s[IndexOf(s, ch) + 1..] else ""
  }

  /** A move string made of an arrow-free text, the arrow of `d`, and an
      arrow-free tail is read as a move along `d` with that text and tail. */
  lemma ArrowSplit(prefix: string, d: Dir, tail: string)
    requires Plain(prefix) && Plain(tail)
    ensures FirstDirection(prefix + [Symbol(d)] + tail) == Some(d)
    ensures PartBefore(prefix + [Symbol(d)] + tail, d) == prefix
    ensures AfterFirst(prefix + [Symbol(d)] + tail, Symbol(d)) == tail
  {
    FindArrow(prefix, d, tail);
    IndexOfAfter(prefix, Symbol(d), tail);
    assert (prefix + [Symbol(d)] + tail)[|prefix| + 1..] == tail;
  }

  /** The older push string names only the first opposing cell, and tags it with
      the mover's colour although that cell holds the opponent's; a space ends it. */
  lemma LegacyPushText(board: Board, player: char, c: Cell, d: Dir)
    requires LegalPush(board, player, c, d)
    requires IsWordChar(player)
    ensures var text := Render(board, player, Legacy, Push(c, d));
      var b := Beyond(board, player, c, d);
      FirstDirection(text) == Some(d)
      && FindMarbles(AfterFirst(text, Symbol(d))) == [Marble(b.x, b.y, player)] && board[b] != player
      && text[|text| - 1] == ' '
  {
    var g := Group(board, player, c, d);
    var b := Beyond(board, player, c, d);
    GroupTextPlain(g, player);
    LegacyPushTailFacts(b, player);
    ArrowSplit(GroupText(g, player), d, LegacyPushTail(b, player));
  }

  lemma LegacyPushTailFacts(b: Cell, player: char)
    requires IsWordChar(player)
    ensures Plain(LegacyPushTail(b, player))
    ensures FindMarbles(LegacyPushTail(b, player)) == [Marble(b.x, b.y, player)]
    ensures LegacyPushTail(b, player)[|LegacyPushTail(b, player)| - 1] == ' '
  {
    var t := MarbleText(b, player);
    MarbleTextPlain(b, player);
    WrapFacts(t);
    FindWrapped(b, player);
  }

  lemma WrapFacts(t: string)
    ensures "p" + t + " " == "p" + (t + " ")
    ensures ("p" + t + " ")[|"p" + t + " "| - 1] == ' '
    ensures Plain(t) ==> Plain("p" + t + " ")
  {
  }

  lemma FindWrapped(b: Cell, player: char)
    requires IsWordChar(player)
    ensures FindMarbles("p" + (MarbleText(b, player) + " ")) == [Marble(b.x, b.y, player)]
  {
    SkipText("p", MarbleText(b, player) + " ");
    FindAfterMarble(b, player, " ");
    SkipText(" ", "");
    assert " " + "" == " ";
  }

  /** The newer push string lists the whole opposing run after the `p`, each cell
      with the value it holds. */
  lemma CurrentPushText(board: Board, player: char, c: Cell, d: Dir)
    requires LegalPush(board, player, c, d)
    requires IsWordChar(player)
    requires forall k :: k in board ==> IsWordChar(board[k])
    ensures var text := Render(board, player, Current, Push(c, d));
      var r := OpponentRun(board, player, Beyond(board, player, c, d), d);
      FirstDirection(text) == Some(d)
      && |FindMarbles(AfterFirst(text, Symbol(d)))| == |r|
      && forall i :: 0 <= i < |r| ==> FindMarbles(AfterFirst(text, Symbol(d)))[i] == Marble(r[i].x, r[i].y, board[r[i]])
  {
    var g := Group(board, player, c, d);
    var r := OpponentRun(board, player, Beyond(board, player, c, d), d);
    RunOnBoard(board, player, c, d);
    GroupTextPlain(g, player);
    RunTextPlain(board, r);
    assert CurrentPushTail(board, r) == "p" + RunText(board, r);
    assert Plain(CurrentPushTail(board, r));
    ArrowSplit(GroupText(g, player), d, CurrentPushTail(board, r));
    SkipText("p", RunText(board, r));
    FindRunText(board, r);
  }

  lemma RunTextPlain(board: Board, r: seq<Cell>)
    requires forall i :: 0 <= i < |r| ==> r[i] in board && IsWordChar(board[r[i]])
    ensures Plain(RunText(board, r))
  {
    var ts := RunTexts(board, r);
    forall k | 0 <= k < |ts| ensures Plain(ts[k]) {
      MarbleTextPlain(r[k], board[r[k]]);
    }
    JoinWithAll("-", ts, ch => !IsSymbol(ch));
  }

  /** `re.findall` recovers every triple of a rendered run, with its own colour. */
  lemma {:induction false} FindRunText(board: Board, r: seq<Cell>)
    requires forall i :: 0 <= i < |r| ==> r[i] in board && IsWordChar(board[r[i]])
    ensures |FindMarbles(RunText(board, r))| == |r|
    ensures forall i :: 0 <= i < |r| ==> FindMarbles(RunText(board, r))[i] == Marble(r[i].x, r[i].y, board[r[i]])
    decreases |r|
  {
    if |r| == 1 {
      FindAfterMarble(r[0], board[r[0]], "");
      assert RunText(board, r) == MarbleText(r[0], board[r[0]]) + "";
    } else if |r| > 1 {
      FindRunTextCons(board, r);
      FindRunText(board, r[1..]);
      var found := FindMarbles(RunText(board, r));
      var tail := FindMarbles(RunText(board, r[1..]));
      forall i | 0 <= i < |r| ensures found[i] == Marble(r[i].x, r[i].y, board[r[i]]) {
        if i > 0 {
          assert found[i] == tail[i - 1] && r[1..][i - 1] == r[i];
        }
      }
    }
  }

  /** The first triple of a run of two or more, then the rest of the run. */
  lemma FindRunTextCons(board: Board, r: seq<Cell>)
    requires |r| > 1
    requires forall i :: 0 <= i < |r| ==> r[i] in board && IsWordChar(board[r[i]])
    ensures FindMarbles(RunText(board, r)) == [Marble(r[0].x, r[0].y, board[r[0]])] + FindMarbles(RunText(board, r[1..]))
  {
    RunTextsCons(board, r);
    FindJoinedMarble(r[0], board[r[0]], RunTexts(board, r[1..]));
  }

  lemma RunTextsCons(board: Board, r: seq<Cell>)
    requires |r| >= 1
    requires forall i :: 0 <= i < |r| ==> r[i] in board
    ensures RunTexts(board, r) == [MarbleText(r[0], board[r[0]])] + RunTexts(board, r[1..])
  {
    var a := RunTexts(board, r);
    var b := [MarbleText(r[0], board[r[0]])] + RunTexts(board, r[1..]);
    forall i | 0 <= i < |a| ensures a[i] == b[i] {
      if i > 0 {
        assert r[1..][i - 1] == r[i];
      }
    }
  }

  /** A triple joined with `-` in front of further parts is found first. */
  lemma FindJoinedMarble(c: Cell, colour: char, parts: seq<string>)
    requires parts != [] && IsWordChar(colour)
    ensures FindMarbles(JoinWith("-", [MarbleText(c, colour)] + parts))
      == [Marble(c.x, c.y, colour)] + FindMarbles(JoinWith("-", parts))
  {
    var all := [MarbleText(c, colour)] + parts;
    var rest := JoinWith("-", parts);
    assert all[1..] == parts;
    JoinCons("-", all);
    FindAfterMarble(c, colour, "-" + rest);
    SkipText("-", rest);
  }

  /** One `(from)arrow(to)` pair of the older side-step string. */
  function PairText(c: Cell, side: Dir, colour: char): string {
    MarbleText(c, colour) + [Symbol(side)] + MarbleText(Step(c, side, 1), colour)
  }

  function PairTexts(cells: seq<Cell>, side: Dir, colour: char): (ts: seq<string>)
    ensures |ts| == |cells|
    ensures forall i :: 0 <= i < |cells| ==> ts[i] == PairText(cells[i], side, colour)
  {
    seq(|cells|, i requires 0 <= i < |cells| => PairText(cells[i], side, colour))
  }

  /** The triples of one pair, scanned with whatever follows. */
  lemma FindPair(c: Cell, side: Dir, colour: char, rest: string)
    requires IsWordChar(colour)
    ensures FindMarbles(PairText(c, side, colour) + rest)
      == [Marble(c.x, c.y, colour), Marble(Step(c, side, 1).x, Step(c, side, 1).y, colour)] + FindMarbles(rest)
  {
    var first := MarbleText(c, colour);
    var second := MarbleText(Step(c, side, 1), colour);
    var tail := [Symbol(side)] + (second + rest);
    FindAfterMarble(c, colour, tail);
    SkipText([Symbol(side)], second + rest);
    FindAfterMarble(Step(c, side, 1), colour, rest);
    FindThree(first, [Symbol(side)], second, rest, Marble(c.x, c.y, colour), Marble(Step(c, side, 1).x, Step(c, side, 1).y, colour));
  }

  lemma Regroup(a: string, b: string, c: string, rest: string)
    ensures a + b + c + rest == a + (b + (c + rest))
  {
  }

  /** Scanning a triple, a skipped separator and a second triple. */
  lemma FindThree(first: string, sep: string, second: string, rest: string, m1: Marble, m2: Marble)
    requires FindMarbles(first + (sep + (second + rest))) == [m1] + FindMarbles(sep + (second + rest))
    requires FindMarbles(sep + (second + rest)) == FindMarbles(second + rest)
    requires FindMarbles(second + rest) == [m2] + FindMarbles(rest)
    ensures FindMarbles(first + sep + second + rest) == [m1, m2] + FindMarbles(rest)
  {
    Regroup(first, sep, second, rest);
  }

  lemma FindPairThenSep(c: Cell, side: Dir, colour: char, rest: string)
    requires IsWordChar(colour)
    ensures FindMarbles(PairText(c, side, colour) + (" + " + rest))
      == [Marble(c.x, c.y, colour), Marble(Step(c, side, 1).x, Step(c, side, 1).y, colour)] + FindMarbles(rest)
  {
    FindPair(c, side, colour, " + " + rest);
    FindAfterSep(rest);
  }

  lemma FindAfterSep(rest: string)
    ensures FindMarbles(" + " + rest) == FindMarbles(rest)
  {
    SkipText(" + ", rest);
  }

  /** Origin and destination of each pair, in order. */
  function PairMarbles(cells: seq<Cell>, side: Dir, colour: char): seq<Marble>
    decreases |cells|
  {
    if cells == [] then []
    else [Marble(cells[0].x, cells[0].y, colour), Marble(Step(cells[0], side, 1).x, Step(cells[0], side, 1).y, colour)]
         + PairMarbles(cells[1..], side, colour)
  }

  /** The pair triples alternate each marble and its destination. */
  lemma {:induction false} PairMarblesSpec(cells: seq<Cell>, side: Dir, colour: char)
    ensures var ms := PairMarbles(cells, side, colour);
      |ms| == 2 * |cells|
      && forall i :: 0 <= i < |cells| ==>
           ms[2 * i] == Marble(cells[i].x, cells[i].y, colour)
           && ms[2 * i + 1] == Marble(Step(cells[i], side, 1).x, Step(cells[i], side, 1).y, colour)
    decreases |cells|
  {
    if cells != [] {
      PairMarblesSpec(cells[1..], side, colour);
      var tail := PairMarbles(cells[1..], side, colour);
      var ms := PairMarbles(cells, side, colour);
      forall i | 1 <= i < |cells|
        ensures ms[2 * i] == Marble(cells[i].x, cells[i].y, colour)
        ensures ms[2 * i + 1] == Marble(Step(cells[i], side, 1).x, Step(cells[i], side, 1).y, colour)
      {
        assert ms[2 * i] == tail[2 * (i - 1)] && ms[2 * i + 1] == tail[2 * (i - 1) + 1];
        assert cells[1..][i - 1] == cells[i];
      }
    }
  }

  /** The older side-step string is one pair per group marble, each naming the
      marble and its destination, so its triples alternate origin and destination. */
  lemma {:induction false} LegacySideStepPairs(cells: seq<Cell>, side: Dir, colour: char)
    requires IsWordChar(colour)
    ensures FindMarbles(JoinWith(" + ", PairTexts(cells, side, colour))) == PairMarbles(cells, side, colour)
    decreases |cells|
  {
    var pairs := PairTexts(cells, side, colour);
    if |cells| == 1 {
      FindPair(cells[0], side, colour, "");
      assert pairs[0] + "" == pairs[0];
    } else if |cells| > 1 {
      var rest := JoinWith(" + ", pairs[1..]);
      PairTextsTail(cells, side, colour);
      JoinCons(" + ", pairs);
      FindPairThenSep(cells[0], side, colour, rest);
      LegacySideStepPairs(cells[1..], side, colour);
    }
  }

  lemma PairTextsTail(cells: seq<Cell>, side: Dir, colour: char)
    requires |cells| >= 1
    ensures PairTexts(cells[1..], side, colour) == PairTexts(cells, side, colour)[1..]
  {
    var a := PairTexts(cells[1..], side, colour);
    var b := PairTexts(cells, side, colour)[1..];
    forall i | 0 <= i < |a| ensures a[i] == b[i] {
      assert cells[1..][i] == cells[i + 1];
    }
  }
}
