/** `apply_move`: reads a move string back and rewrites the board dictionary in
    place. The string is cut at the first direction arrow (in `DIRECTIONS`
    order), the triples before it are the moving marbles, the run of occupied
    cells ahead of the last of them is pushed one step when the group outnumbers
    it and it is at most two long, and then the moving marbles are moved one step,
    last first, with `board[new] = board.pop(old)`. */
module ApplyMove {
  import opened Hex
  import opened Text
  import opened Directions
  import opened MoveRules
  import opened MoveText
  import GameBoard

  /** What the code binds to `player`. The source reads the second component of
      the first triple, the y coordinate, an integer; the colour is the third
      component. Both readings are modelled, and they differ only in how the run
      ahead is scanned and in the colour the pushed marbles are given. */
  datatype PlayerValue = Colour(ch: char) | Coordinate(n: int)

  /** The final board and the exception raised, if any. The board is the one the
      dictionary holds when the exception leaves: updates made before it stay. */
  datatype Outcome = Outcome(board: Board, raised: Option<PyError>)

  /** The scan condition `board[p] not in ('N', player)` for a key `p`: a
      character is never equal to an integer. */
  predicate Chains(board: Board, p: Cell, player: PlayerValue) {
    p in board && board[p] != Empty && (player.Coordinate? || board[p] != player.ch)
  }

  /** The colour written on pushed marbles: `'b' if player == 'w' else 'w'`.
      Read as a coordinate, `player` is never `'w'`, so every pushed marble turns
      white; read as a colour, pushed marbles take the other colour. */
  function ShiftColour(player: PlayerValue): (colour: char)
    ensures colour in {'b', 'w'}
    ensures player.Coordinate? ==> colour == 'w'
    ensures player.Colour? && player.ch in {'b', 'w'} ==> colour != player.ch
  {
    if player == Colour('w') then 'b' else 'w'
  }

  // ---------------------------------------------------------------------------
  // The run scanned ahead of the group

  /** How far along `d` a cell lies; one step along `d` increases it. */
  function Progress(c: Cell, d: Dir): int {
    c.x * Dx(d) + c.y * Dy(d)
  }

  /** The keys at or beyond `p` along `d`: a measure that shrinks as the scan
      advances over keys, since the board has finitely many. */
  function Ahead(board: Board, p: Cell, d: Dir): set<Cell> {
    set k | k in board && Progress(k, d) >= Progress(p, d)
  }

  lemma AheadShrinks(board: Board, p: Cell, d: Dir)
    requires p in board
    ensures Ahead(board, Step(p, d, 1), d) < Ahead(board, p, d)
  {
    assert Progress(Step(p, d, 1), d) > Progress(p, d) by {
      match d
      case Right => case Left => case UpLeft => case DownRight => case UpRight => case DownLeft =>
    }
    assert p in Ahead(board, p, d) && p !in Ahead(board, Step(p, d, 1), d);
  }

  lemma StepOn(p: Cell, d: Dir)
    ensures forall i :: Step(Step(p, d, 1), d, i) == Step(p, d, i + 1)
  {
    forall i ensures Step(Step(p, d, 1), d, i) == Step(p, d, i + 1) {
      StepFacts(p, d, 1, i);
    }
  }

  /** The `while` loop's run: the cells from `p` along `d` that satisfy the scan
      condition, up to the first that does not. It is not capped in length. */
  function Chain(board: Board, p: Cell, d: Dir, player: PlayerValue): (run: seq<Cell>)
    ensures forall i :: 0 <= i < |run| ==> run[i] == Step(p, d, i) && Chains(board, run[i], player)
    ensures !Chains(board, Step(p, d, |run|), player)
    decreases Ahead(board, p, d)
  {
    if Chains(board, p, player) then
      AheadShrinks(board, p, d);
      StepOn(p, d);
      [p] + Chain(board, Step(p, d, 1), d, player)
    else
      []
  }

  // ---------------------------------------------------------------------------
  // The two update loops

  /** The shift loop, last cell of the run first: each cell's successor along
      `d` that is a key is given `colour`; one that is not is skipped, so a
      marble pushed off the board simply disappears. */
  function Shift(board: Board, run: seq<Cell>, d: Dir, colour: char): Board
    decreases |run|
  {
    if run == [] then board
    else
      var next := Step(run[|run| - 1], d, 1);
      Shift(if next in board then board[next := colour] else board, run[..|run| - 1], d, colour)
  }

  /** One `board[new] = board.pop(old)`. */
  function MoveOne(board: Board, o: Cell, d: Dir): Board
    requires o in board
  {
    (board - {o})[Step(o, d, 1) := board[o]]
  }

  /** The move loop, last marble first; `pop` of a cell that is not a key raises
      `KeyError` and leaves the updates already made. */
  function MoveAll(board: Board, ms: seq<Marble>, d: Dir): Outcome
    decreases |ms|
  {
    if ms == [] then Outcome(board, None)
    else
      var o := ms[|ms| - 1].At();
      if o !in board then Outcome(board, Some(KeyError))
      else MoveAll(MoveOne(board, o, d), ms[..|ms| - 1], d)
  }

  // ---------------------------------------------------------------------------
  // The whole operation

  /** Everything after the marbles are extracted, for a given reading of `player`. */
  function ApplyParsed(board: Board, ms: seq<Marble>, d: Dir, player: PlayerValue): Outcome
    requires ms != []
  {
    var run := Chain(board, Step(ms[|ms| - 1].At(), d, 1), d, player);
    var shifted := if |ms| > |run| && |run| <= 2 then Shift(board, run, d, ShiftColour(player)) else board;
    MoveAll(shifted, ms, d)
  }

  /** `apply_move` as written: `player` is the y coordinate of the first triple. */
  function ApplyMoveSpec(board: Board, s: string): Outcome {
    match FirstDirection(s)
    case None => Outcome(board, Some(ValueError))
    case Some(d) =>
      var ms := MovingMarbles(s, d);
      if ms == [] then Outcome(board, Some(IndexError))
      else ApplyParsed(board, ms, d, Coordinate(ms[0].y))
  }

  /** `apply_move` with `player` read as the colour of the first triple. */
  function ApplyMoveIntended(board: Board, s: string): Outcome {
    match FirstDirection(s)
    case None => Outcome(board, Some(ValueError))
    case Some(d) =>
      var ms := MovingMarbles(s, d);
      if ms == [] then Outcome(board, Some(IndexError))
      else ApplyParsed(board, ms, d, Colour(ms[0].colour))
  }

  // ---------------------------------------------------------------------------
  // The method

  /** `Chain` is the only run of scanned cells from `p` that stops at the first
      cell failing the scan condition. */
  lemma ChainUnique(board: Board, p: Cell, d: Dir, player: PlayerValue, run: seq<Cell>)
    requires forall i :: 0 <= i < |run| ==> run[i] == Step(p, d, i) && Chains(board, run[i], player)
    requires !Chains(board, Step(p, d, |run|), player)
    ensures run == Chain(board, p, d, player)
  {
    var chain := Chain(board, p, d, player);
    assert |chain| < |run| ==> Chains(board, Step(p, d, |chain|), player);
    assert |run| < |chain| ==> Chains(board, Step(p, d, |run|), player);
  }

  /** The `while` loop collecting the run ahead of the last moving marble. */
  method ScanRun(board: Board, start: Cell, d: Dir, player: PlayerValue) returns (opponents: seq<Cell>)
    ensures opponents == Chain(board, start, d, player)
  {
    opponents := [];
    var pushPos := start;
    while pushPos in board && board[pushPos] != Empty && (player.Coordinate? || board[pushPos] != player.ch)
      invariant pushPos == Step(start, d, |opponents|)
      invariant forall i :: 0 <= i < |opponents| ==> opponents[i] == Step(start, d, i) && Chains(board, opponents[i], player)
      decreases Ahead(board, pushPos, d)
    {
      AheadShrinks(board, pushPos, d);
      StepFacts(start, d, |opponents|, 1);
      opponents := opponents + [pushPos];
      pushPos := Step(pushPos, d, 1);
    }
    ChainUnique(board, start, d, player, opponents);
  }

  /** The loop over `reversed(opponent_marbles)` writing the pushed colour. */
  method ShiftInPlace(b: GameBoard.BoardDict, opponents: seq<Cell>, d: Dir, colour: char)
    modifies b
    ensures b.cells == Shift(old(b.cells), opponents, d, colour)
  {
    var i := |opponents|;
    assert opponents[..i] == opponents;
    while i > 0
      invariant 0 <= i <= |opponents|
      invariant Shift(b.cells, opponents[..i], d, colour) == Shift(old(b.cells), opponents, d, colour)
      decreases i
    {
      var next := Step(opponents[i - 1], d, 1);
      assert opponents[..i][..i - 1] == opponents[..i - 1];
      if next in b.cells {
        b.cells := b.cells[next := colour];
      }
      i := i - 1;
    }
  }

  /** The loop over `reversed(marbles)`: `board[new] = board.pop(old)`. */
  method MoveInPlace(b: GameBoard.BoardDict, marbles: seq<Marble>, d: Dir) returns (raised: Option<PyError>)
    modifies b
    ensures Outcome(b.cells, raised) == MoveAll(old(b.cells), marbles, d)
  {
    var j := |marbles|;
    assert marbles[..j] == marbles;
    while j > 0
      invariant 0 <= j <= |marbles|
      invariant MoveAll(b.cells, marbles[..j], d) == MoveAll(old(b.cells), marbles, d)
      decreases j
    {
      var x, y := marbles[j - 1].x, marbles[j - 1].y;
      assert marbles[..j][..j - 1] == marbles[..j - 1];
      if Cell(x, y) !in b.cells {
        return Some(KeyError);
      }
      var newPos := Cell(x + Dx(d), y + Dy(d));
      var value := b.cells[Cell(x, y)];
      b.cells := b.cells - {Cell(x, y)};
      b.cells := b.cells[newPos := value];
      j := j - 1;
    }
    return None;
  }

  /** The body of `apply_move` once the marbles are extracted. */
  method ApplyParsedInPlace(b: GameBoard.BoardDict, marbles: seq<Marble>, d: Dir, player: PlayerValue)
    returns (raised: Option<PyError>)
    requires marbles != []
    modifies b
    ensures Outcome(b.cells, raised) == ApplyParsed(old(b.cells), marbles, d, player)
  {
    var last := marbles[|marbles| - 1];
    assert Cell(last.x + Dx(d), last.y + Dy(d)) == Step(last.At(), d, 1);
    var opponents := ScanRun(b.cells, Cell(last.x + Dx(d), last.y + Dy(d)), d, player);
    ghost var shifted := if |marbles| > |opponents| && |opponents| <= 2
      then Shift(b.cells, opponents, d, ShiftColour(player)) else b.cells;
    if |marbles| > |opponents| && |opponents| <= 2 {
      ShiftInPlace(b, opponents, d, if player == Colour('w') then 'b' else 'w');
    }
    assert b.cells == shifted;
    raised := MoveInPlace(b, marbles, d);
  }

  /** `apply_move(board, move_str)` as written. */
  method ApplyMoveInPlace(b: GameBoard.BoardDict, s: string) returns (raised: Option<PyError>)
    modifies b
    ensures Outcome(b.cells, raised) == ApplyMoveSpec(old(b.cells), s)
  {
    var direction := FirstDirection(s);
    if direction.None? {
      return Some(ValueError);
    }
    var d := direction.value;
    var marbles := MovingMarbles(s, d);
    if marbles == [] {
      return Some(IndexError);
    }
    raised := ApplyParsedInPlace(b, marbles, d, Coordinate(marbles[0].y));
  }

  /** `apply_move(board, move_str)` with `player` read as the colour. */
  method ApplyMoveCorrected(b: GameBoard.BoardDict, s: string) returns (raised: Option<PyError>)
    modifies b
    ensures Outcome(b.cells, raised) == ApplyMoveIntended(old(b.cells), s)
  {
    var direction := FirstDirection(s);
    if direction.None? {
      return Some(ValueError);
    }
    var d := direction.value;
    var marbles := MovingMarbles(s, d);
    if marbles == [] {
      return Some(IndexError);
    }
    raised := ApplyParsedInPlace(b, marbles, d, Colour(marbles[0].colour));
  }

  // ---------------------------------------------------------------------------
  // Errors

  /** The move loop raises nothing but `KeyError`. */
  lemma {:induction false} MoveAllRaises(board: Board, ms: seq<Marble>, d: Dir)
    ensures MoveAll(board, ms, d).raised in {None, Some(KeyError)}
    decreases |ms|
  {
    if ms != [] && ms[|ms| - 1].At() in board {
      MoveAllRaises(MoveOne(board, ms[|ms| - 1].At(), d), ms[..|ms| - 1], d);
    }
  }

  /** After the marbles are extracted only `KeyError` can be raised. */
  lemma ApplyParsedRaises(board: Board, ms: seq<Marble>, d: Dir, player: PlayerValue)
    requires ms != []
    ensures ApplyParsed(board, ms, d, player).raised in {None, Some(KeyError)}
  {
    var run := Chain(board, Step(ms[|ms| - 1].At(), d, 1), d, player);
    MoveAllRaises(if |ms| > |run| && |run| <= 2 then Shift(board, run, d, ShiftColour(player)) else board, ms, d);
  }

  /** `ValueError` exactly when the string holds no arrow, `IndexError` exactly
      when no triple precedes the arrow found; in both cases the board is left
      as it was. */
  lemma ApplyMoveErrors(board: Board, s: string)
    ensures var r := ApplyMoveSpec(board, s);
      (r.raised == Some(ValueError) <==> Plain(s))
      && (r.raised == Some(IndexError) <==> !Plain(s) && MovingMarbles(s, FirstDirection(s).value) == [])
      && (r.raised in {Some(ValueError), Some(IndexError)} ==> r.board == board)
  {
    FirstDirectionOfPlain(s);
    if !Plain(s) {
      var ms := MovingMarbles(s, FirstDirection(s).value);
      if ms != [] {
        ApplyParsedRaises(board, ms, FirstDirection(s).value, Coordinate(ms[0].y));
      }
    }
  }

  /** The same error behaviour with `player` read as the colour. */
  lemma ApplyMoveIntendedErrors(board: Board, s: string)
    ensures var r := ApplyMoveIntended(board, s);
      (r.raised == Some(ValueError) <==> Plain(s))
      && (r.raised == Some(IndexError) <==> !Plain(s) && MovingMarbles(s, FirstDirection(s).value) == [])
      && (r.raised in {Some(ValueError), Some(IndexError)} ==> r.board == board)
  {
    FirstDirectionOfPlain(s);
    if !Plain(s) {
      var ms := MovingMarbles(s, FirstDirection(s).value);
      if ms != [] {
        ApplyParsedRaises(board, ms, FirstDirection(s).value, Colour(ms[0].colour));
      }
    }
  }

  // ---------------------------------------------------------------------------
  // What the loops do

  /** The cells the moving marbles start on. */
  function Origins(ms: seq<Marble>): set<Cell> {
    set i | 0 <= i < |ms| :: ms[i].At()
  }

  /** The cells one step along `d` from them. */
  function Destinations(ms: seq<Marble>, d: Dir): set<Cell> {
    set i | 0 <= i < |ms| :: Step(ms[i].At(), d, 1)
  }

  /** The move loop over marbles on distinct keys all valued `p`, where no marble
      moves onto a cell of one moved after it: no error, the origins leave the
      dictionary, the destinations are keys valued `p`, and nothing else changes. */
  lemma {:induction false} MoveAllSpec(board: Board, ms: seq<Marble>, d: Dir, p: char)
    requires forall i :: 0 <= i < |ms| ==> Holds(board, ms[i].At(), p)
    requires forall i, j :: 0 <= i < j < |ms| ==> ms[i].At() != ms[j].At() && Step(ms[j].At(), d, 1) != ms[i].At()
    ensures var r := MoveAll(board, ms, d);
      r.raised == None
      && r.board.Keys == board.Keys - Origins(ms) + Destinations(ms, d)
      && forall k :: k in r.board ==> r.board[k] == if k in Destinations(ms, d) then p else board[k]
    decreases |ms|
  {
    if ms != [] {
      var n := |ms| - 1;
      var o := ms[n].At();
      var next := MoveOne(board, o, d);
      var front := ms[..n];
      forall i | 0 <= i < n ensures Holds(next, front[i].At(), p) {
        assert front[i] == ms[i];
      }
      MoveAllSpec(next, front, d, p);
      OriginsSnoc(ms);
      DestinationsSnoc(ms, d);
      assert Step(o, d, 1) !in Origins(front) by {
        forall i | 0 <= i < n ensures front[i].At() != Step(o, d, 1) {
          assert front[i] == ms[i];
        }
      }
    }
  }

  lemma OriginsSnoc(ms: seq<Marble>)
    requires ms != []
    ensures Origins(ms) == Origins(ms[..|ms| - 1]) + {ms[|ms| - 1].At()}
  {
    var front := ms[..|ms| - 1];
    forall k | k in Origins(ms) ensures k in Origins(front) + {ms[|ms| - 1].At()} {
      var i :| 0 <= i < |ms| && ms[i].At() == k;
      if i < |front| { assert front[i] == ms[i]; }
    }
    forall k | k in Origins(front) ensures k in Origins(ms) {
      var i :| 0 <= i < |front| && front[i].At() == k;
      assert ms[i] == front[i];
    }
  }

  lemma DestinationsSnoc(ms: seq<Marble>, d: Dir)
    requires ms != []
    ensures Destinations(ms, d) == Destinations(ms[..|ms| - 1], d) + {Step(ms[|ms| - 1].At(), d, 1)}
  {
    var front := ms[..|ms| - 1];
    forall k | k in Destinations(ms, d) ensures k in Destinations(front, d) + {Step(ms[|ms| - 1].At(), d, 1)} {
      var i :| 0 <= i < |ms| && Step(ms[i].At(), d, 1) == k;
      if i < |front| { assert front[i] == ms[i]; }
    }
    forall k | k in Destinations(front, d) ensures k in Destinations(ms, d) {
      var i :| 0 <= i < |front| && Step(front[i].At(), d, 1) == k;
      assert ms[i] == front[i];
    }
  }

  /** The cells the shift writes to: the successors of the run's cells. */
  function Targets(run: seq<Cell>, d: Dir): set<Cell> {
    set i | 0 <= i < |run| :: Step(run[i], d, 1)
  }

  /** The shift keeps the key set and writes `colour` on exactly the targets
      that are keys. */
  lemma {:induction false} ShiftSpec(board: Board, run: seq<Cell>, d: Dir, colour: char)
    ensures var r := Shift(board, run, d, colour);
      r.Keys == board.Keys
      && forall k :: k in r ==> r[k] == if k in Targets(run, d) then colour else board[k]
    decreases |run|
  {
    if run != [] {
      var n := |run| - 1;
      var next := Step(run[n], d, 1);
      var b' := if next in board then board[next := colour] else board;
      ShiftSpec(b', run[..n], d, colour);
      assert Targets(run, d) == Targets(run[..n], d) + {next} by {
        forall k | k in Targets(run, d) ensures k in Targets(run[..n], d) + {next} {
          var i :| 0 <= i < |run| && Step(run[i], d, 1) == k;
          if i < n { assert run[..n][i] == run[i]; }
        }
        forall k | k in Targets(run[..n], d) ensures k in Targets(run, d) {
          var i :| 0 <= i < n && Step(run[..n][i], d, 1) == k;
          assert run[i] == run[..n][i];
        }
      }
    }
  }

  // ---------------------------------------------------------------------------
  // Reading back the strings the generators emit

  /** The cells whose marbles a generated move moves, in the order written. */
  function MovedCells(board: Board, player: char, m: Move): seq<Cell> {
    match m
    case Single(c, _) => [c]
    case Inline(c, d) => Group(board, player, c, d)
    case Push(c, d) => Group(board, player, c, d)
    case SideStep(c, align, _) => Group(board, player, c, align)
  }

  /** The direction a generated move moves its marbles in. */
  function Heading(m: Move): Dir {
    match m
    case Single(_, d) => d
    case Inline(_, d) => d
    case Push(_, d) => d
    case SideStep(_, _, side) => side
  }

  lemma SingleParse(board: Board, player: char, c: Cell, d: Dir)
    requires LegalSingle(board, player, c, d) && IsWordChar(player)
    ensures var t := Render(board, player, Current, Single(c, d));
      FirstDirection(t) == Some(d) && MovingMarbles(t, d) == MarblesOf([c], player)
  {
    MarbleTextPlain(c, player);
    MarbleTextPlain(Step(c, d, 1), player);
    ArrowSplit(MarbleText(c, player), d, MarbleText(Step(c, d, 1), player));
    FindGroupText([c], player);
    assert GroupText([c], player) == MarbleText(c, player);
  }

  lemma InlineParse(board: Board, player: char, c: Cell, d: Dir)
    requires LegalInline(board, player, c, d) && IsWordChar(player)
    ensures var t := Render(board, player, Current, Inline(c, d));
      FirstDirection(t) == Some(d) && MovingMarbles(t, d) == MarblesOf(Group(board, player, c, d), player)
  {
    MarbleTextPlain(Beyond(board, player, c, d), player);
    GroupMoveParse(Group(board, player, c, d), player, d, MarbleText(Beyond(board, player, c, d), player));
  }

  lemma PushParse(board: Board, player: char, c: Cell, d: Dir)
    requires LegalPush(board, player, c, d) && IsWordChar(player)
    requires forall k :: k in board ==> IsWordChar(board[k])
    ensures var t := Render(board, player, Current, Push(c, d));
      FirstDirection(t) == Some(d) && MovingMarbles(t, d) == MarblesOf(Group(board, player, c, d), player)
  {
    var r := OpponentRun(board, player, Beyond(board, player, c, d), d);
    RunOnBoard(board, player, c, d);
    RunTextPlain(board, r);
    assert Plain(CurrentPushTail(board, r));
    GroupMoveParse(Group(board, player, c, d), player, d, CurrentPushTail(board, r));
  }

  lemma SideStepParse(board: Board, player: char, c: Cell, align: Dir, side: Dir)
    requires LegalSideStep(board, player, c, align, side) && IsWordChar(player)
    ensures var t := Render(board, player, Current, SideStep(c, align, side));
      FirstDirection(t) == Some(side) && MovingMarbles(t, side) == MarblesOf(Group(board, player, c, align), player)
  {
    var g := Group(board, player, c, align);
    var tail := "s" + GroupText(Shifted(g, side), player);
    GroupTextPlain(Shifted(g, side), player);
    PlainAfterS(GroupText(Shifted(g, side), player));
    RenderSideStep(board, player, c, align, side);
    GroupMoveParse(g, player, side, tail);
  }

  /** The current side-step string: the group, the arrow, then `s` and the shifted group. */
  lemma RenderSideStep(board: Board, player: char, c: Cell, align: Dir, side: Dir)
    requires LegalSideStep(board, player, c, align, side)
    ensures var g := Group(board, player, c, align);
      Render(board, player, Current, SideStep(c, align, side))
        == GroupText(g, player) + [Symbol(side)] + ("s" + GroupText(Shifted(g, side), player))
  {
    var g := Group(board, player, c, align);
    Associate(GroupText(g, player) + [Symbol(side)], "s", GroupText(Shifted(g, side), player));
  }

  /** A group's text, an arrow and an arrow-free tail read back as a move along
      the arrow's direction that moves the group's triples. */
  lemma GroupMoveParse(g: seq<Cell>, player: char, d: Dir, tail: string)
    requires IsWordChar(player) && Plain(tail)
    ensures FirstDirection(GroupText(g, player) + [Symbol(d)] + tail) == Some(d)
    ensures MovingMarbles(GroupText(g, player) + [Symbol(d)] + tail, d) == MarblesOf(g, player)
  {
    GroupTextPlain(g, player);
    ArrowSplit(GroupText(g, player), d, tail);
    FindGroupText(g, player);
  }

  lemma Associate(a: string, b: string, c: string)
    ensures a + b + c == a + (b + c)
  {
  }

  lemma PlainAfterS(t: string)
    requires Plain(t)
    ensures Plain("s" + t)
  {
    assert forall i :: 0 < i < |"s" + t| ==> ("s" + t)[i] == t[i - 1];
  }

  // ---------------------------------------------------------------------------
  // The effect of generated moves

  /** The effect of moving the marbles on `cells` one step along `d`: nothing is
      raised, each destination is a key holding `p`, each origin that is not also
      a destination is removed from the dictionary, and every other key keeps its
      value. */
  ghost predicate MovesOnto(board: Board, r: Outcome, cells: seq<Cell>, d: Dir, p: char) {
    var dest := Targets(cells, d);
    r.raised == None
    && (forall k :: k in dest ==> k in board && k in r.board && r.board[k] == p)
    && (forall k :: k in cells && k !in dest ==> k !in r.board)
    && (forall k :: k in board && k !in cells && k !in dest ==> k in r.board && r.board[k] == board[k])
    && r.board.Keys <= board.Keys
  }

  /** Marbles moved onto free cells: the scan ahead finds nothing, so nothing is
      pushed, whichever way `player` is read, and the move loop does the rest. */
  lemma UnopposedEffect(board: Board, cells: seq<Cell>, d: Dir, p: char, player: PlayerValue)
    requires cells != []
    requires forall i :: 0 <= i < |cells| ==> Holds(board, cells[i], p)
    requires forall i, j :: 0 <= i < j < |cells| ==> cells[i] != cells[j] && Step(cells[j], d, 1) != cells[i]
    requires Holds(board, Step(cells[|cells| - 1], d, 1), Empty)
    requires forall k :: k in Targets(cells, d) ==> k in board
    ensures MovesOnto(board, ApplyParsed(board, MarblesOf(cells, p), d, player), cells, d, p)
  {
    var ms := MarblesOf(cells, p);
    var start := Step(cells[|cells| - 1], d, 1);
    assert Step(start, d, 0) == start;
    assert Chain(board, start, d, player) == [];
    assert ApplyParsed(board, ms, d, player) == MoveAll(board, ms, d);
    MoveAllSpec(board, ms, d, p);
    MarbleCellSets(cells, d, p);
  }

  /** A move string that reads back as the marbles of `p` on `cells` moving
      along `d` onto free keys has the same effect whichever way its player
      is read: the group moves onto its targets. */
  lemma ParsedEffect(board: Board, t: string, cells: seq<Cell>, d: Dir, p: char)
    requires FirstDirection(t) == Some(d) && MovingMarbles(t, d) == MarblesOf(cells, p)
    requires cells != []
    requires forall i :: 0 <= i < |cells| ==> Holds(board, cells[i], p)
    requires forall i, j :: 0 <= i < j < |cells| ==> cells[i] != cells[j] && Step(cells[j], d, 1) != cells[i]
    requires Holds(board, Step(cells[|cells| - 1], d, 1), Empty)
    requires forall k :: k in Targets(cells, d) ==> k in board
    ensures ApplyMoveSpec(board, t) == ApplyMoveIntended(board, t)
    ensures MovesOnto(board, ApplyMoveSpec(board, t), cells, d, p)
  {
    var ms := MarblesOf(cells, p);
    UnopposedEffect(board, cells, d, p, Coordinate(ms[0].y));
    UnopposedEffect(board, cells, d, p, Colour(ms[0].colour));
  }

  /** A side-step destination is never a cell of the group. */
  lemma SideStepOffLine(c: Cell, align: Dir, side: Dir, i: int, j: int)
    requires side != align && side != Opposite(align)
    requires i < j
    ensures Step(Step(c, align, j), side, 1) != Step(c, align, i)
  {
    match align
    case Right => case Left => case UpLeft => case DownRight => case UpRight => case DownLeft =>
  }

  lemma SingleEffect(board: Board, player: char, c: Cell, d: Dir)
    requires LegalSingle(board, player, c, d) && IsWordChar(player)
    ensures var t := Render(board, player, Current, Single(c, d));
      ApplyMoveSpec(board, t) == ApplyMoveIntended(board, t)
      && MovesOnto(board, ApplyMoveSpec(board, t), [c], d, player)
  {
    SingleParse(board, player, c, d);
    assert forall k :: k in Targets([c], d) ==> k == Step(c, d, 1);
    ParsedEffect(board, Render(board, player, Current, Single(c, d)), [c], d, player);
  }

  /** The group of an inline move or a push moves onto itself and the cell
      beyond it, which is a key. */
  lemma LineGroupFacts(board: Board, player: char, c: Cell, d: Dir)
    requires LegalInline(board, player, c, d) || LegalPush(board, player, c, d)
    ensures var g := Group(board, player, c, d);
      (forall i :: 0 <= i < |g| ==> Holds(board, g[i], player))
      && (forall i, j :: 0 <= i < j < |g| ==> g[i] != g[j] && Step(g[j], d, 1) != g[i])
      && Step(g[|g| - 1], d, 1) == Beyond(board, player, c, d)
      && (forall i :: 1 <= i < |g| ==> g[i] == Step(g[i - 1], d, 1))
      && (forall k :: k in Targets(g, d) ==> k in board)
  {
    var g := Group(board, player, c, d);
    InlineShape(board, player, c, d);
    LineDistinct(c, d, g);
    LineSteps(c, d, g);
    LineTargets(c, d, g);
    forall k | k in Targets(g, d) ensures k in board {
      if k in g {
        var i :| 0 <= i < |g| && g[i] == k;
      }
    }
  }

  /** The cells `c`, one step on, two steps on, ... along `d` are distinct,
      and none is the step of a later one. */
  lemma LineDistinct(c: Cell, d: Dir, g: seq<Cell>)
    requires forall i :: 0 <= i < |g| ==> g[i] == Step(c, d, i)
    ensures forall i, j :: 0 <= i < j < |g| ==> g[i] != g[j] && Step(g[j], d, 1) != g[i]
  {
    forall i, j | 0 <= i < j < |g| ensures g[i] != g[j] && Step(g[j], d, 1) != g[i] {
      StepFacts(c, d, i, j);
      StepFacts(c, d, j, 1);
      StepFacts(c, d, i, j + 1);
    }
  }

  /** Along such a line each cell is the step of the one before, and the step
      of the last is the cell just past the line. */
  lemma LineSteps(c: Cell, d: Dir, g: seq<Cell>)
    requires g != [] && forall i :: 0 <= i < |g| ==> g[i] == Step(c, d, i)
    ensures Step(g[|g| - 1], d, 1) == Step(c, d, |g|)
    ensures forall i :: 1 <= i < |g| ==> g[i] == Step(g[i - 1], d, 1)
  {
    StepFacts(c, d, |g| - 1, 1);
    forall i | 1 <= i < |g| ensures g[i] == Step(g[i - 1], d, 1) {
      StepFacts(c, d, i - 1, 1);
    }
  }

  /** Stepping the cells of such a line lands on the line itself or on the
      cell just past it. */
  lemma LineTargets(c: Cell, d: Dir, g: seq<Cell>)
    requires g != [] && forall i :: 0 <= i < |g| ==> g[i] == Step(c, d, i)
    ensures forall k :: k in Targets(g, d) ==> k in g || k == Step(c, d, |g|)
  {
    LineSteps(c, d, g);
    forall k | k in Targets(g, d) ensures k in g || k == Step(c, d, |g|) {
      var i :| 0 <= i < |g| && Step(g[i], d, 1) == k;
      if i < |g| - 1 { assert k == g[i + 1]; }
    }
  }

  lemma InlineEffect(board: Board, player: char, c: Cell, d: Dir)
    requires LegalInline(board, player, c, d) && IsWordChar(player)
    ensures var t := Render(board, player, Current, Inline(c, d));
      ApplyMoveSpec(board, t) == ApplyMoveIntended(board, t)
      && MovesOnto(board, ApplyMoveSpec(board, t), Group(board, player, c, d), d, player)
  {
    var cells := Group(board, player, c, d);
    InlineParse(board, player, c, d);
    LineGroupFacts(board, player, c, d);
    ParsedEffect(board, Render(board, player, Current, Inline(c, d)), cells, d, player);
  }

  lemma SideStepEffect(board: Board, player: char, c: Cell, align: Dir, side: Dir)
    requires LegalSideStep(board, player, c, align, side) && IsWordChar(player)
    ensures var t := Render(board, player, Current, SideStep(c, align, side));
      ApplyMoveSpec(board, t) == ApplyMoveIntended(board, t)
      && MovesOnto(board, ApplyMoveSpec(board, t), Group(board, player, c, align), side, player)
  {
    var cells := Group(board, player, c, align);
    SideStepParse(board, player, c, align, side);
    SideStepGroupFacts(board, player, c, align, side);
    ParsedEffect(board, Render(board, player, Current, SideStep(c, align, side)), cells, side, player);
  }

  /** The group of a side step holds the mover's marbles, moves onto free keys
      and never onto one of its own cells. */
  lemma SideStepGroupFacts(board: Board, player: char, c: Cell, align: Dir, side: Dir)
    requires LegalSideStep(board, player, c, align, side)
    ensures var g := Group(board, player, c, align);
      g != []
      && (forall i :: 0 <= i < |g| ==> Holds(board, g[i], player))
      && (forall i, j :: 0 <= i < j < |g| ==> g[i] != g[j] && Step(g[j], side, 1) != g[i])
      && Holds(board, Step(g[|g| - 1], side, 1), Empty)
      && (forall k :: k in Targets(g, side) ==> k in board)
  {
    var cells := Group(board, player, c, align);
    forall i, j | 0 <= i < j < |cells| ensures cells[i] != cells[j] && Step(cells[j], side, 1) != cells[i] {
      StepFacts(c, align, i, j);
      SideStepOffLine(c, align, side, i, j);
    }
    GroupShape(board, player, c, align);
    forall k | k in Targets(cells, side) ensures k in board {
      var i :| 0 <= i < |cells| && Step(cells[i], side, 1) == k;
    }
  }

  /** A generated single, inline or side-step move read back by `apply_move`:
      nothing is raised, each destination holds the mover's colour, each origin
      that is not also a destination is removed from the dictionary, and every
      other key keeps its value; reading `player` as the colour would change
      nothing. */
  lemma GeneratedMoveEffect(board: Board, player: char, m: Move)
    requires Legal(board, player, m) && !m.Push? && IsWordChar(player)
    ensures var t := Render(board, player, Current, m);
      ApplyMoveSpec(board, t) == ApplyMoveIntended(board, t)
      && MovesOnto(board, ApplyMoveSpec(board, t), MovedCells(board, player, m), Heading(m), player)
  {
    match m
    case Single(c, d) => SingleEffect(board, player, c, d);
    case Inline(c, d) => InlineEffect(board, player, c, d);
    case SideStep(c, align, side) => SideStepEffect(board, player, c, align, side);
  }

  // ---------------------------------------------------------------------------
  // Pushes

  /** The cells a pushed run is shifted onto are not the group's cells, nor the
      cells the group moves onto. */
  lemma RunTargetsOffGroup(board: Board, player: char, c: Cell, d: Dir)
    requires LegalPush(board, player, c, d)
    ensures var g := Group(board, player, c, d);
      var r := OpponentRun(board, player, Beyond(board, player, c, d), d);
      (forall i :: 0 <= i < |g| ==> g[i] !in Targets(r, d))
      && Targets(g, d) !! Targets(r, d)
  {
    var g := Group(board, player, c, d);
    var r := OpponentRun(board, player, Beyond(board, player, c, d), d);
    var n := |g|;
    forall i, j | 0 <= i < n && 0 <= j < |r| ensures Step(r[j], d, 1) != g[i] && Step(r[j], d, 1) != Step(g[i], d, 1) {
      PastGroup(c, d, n, i, j);
    }
  }

  /** The successor of a cell `j` steps beyond a group of `n` lies neither on the
      group nor on the cells the group moves onto. */
  lemma PastGroup(c: Cell, d: Dir, n: int, i: int, j: int)
    requires 0 <= i < n && 0 <= j
    ensures Step(Step(Step(c, d, n), d, j), d, 1) != Step(c, d, i)
    ensures Step(Step(Step(c, d, n), d, j), d, 1) != Step(Step(c, d, i), d, 1)
  {
    match d
    case Right =>
    case Left =>
    case UpLeft =>
    case DownRight =>
    case UpRight =>
    case DownLeft =>
  }

  /** With `player` read as the colour, the scan ahead of a legal push finds
      exactly the run the generator found: the scan is not capped, but a run
      shorter than three stopped on its own. */
  lemma ChainIsRun(board: Board, player: char, b: Cell, d: Dir)
    requires |OpponentRun(board, player, b, d)| <= 2 && Opposing(board, player, b)
    ensures Chain(board, b, d, Colour(player)) == OpponentRun(board, player, b, d)
  {
    var r := OpponentRun(board, player, b, d);
    assert !Opposing(board, player, Step(b, d, |r|));
    ChainUnique(board, b, d, Colour(player), r);
  }

  /** A push reads as: shift the generator's run, then move the group. */
  lemma PushSteps(board: Board, player: char, c: Cell, d: Dir, reading: PlayerValue)
    requires LegalPush(board, player, c, d)
    requires Chain(board, Beyond(board, player, c, d), d, reading) == OpponentRun(board, player, Beyond(board, player, c, d), d)
    ensures var g := Group(board, player, c, d);
      var r := OpponentRun(board, player, Beyond(board, player, c, d), d);
      ApplyParsed(board, MarblesOf(g, player), d, reading) == MoveAll(Shift(board, r, d, ShiftColour(reading)), MarblesOf(g, player), d)
  {
    LineGroupFacts(board, player, c, d);
  }

  /** Moving the group removes only its first cell from the key set. */
  lemma PushKeys(board: Board, player: char, c: Cell, d: Dir)
    requires LegalPush(board, player, c, d)
    ensures var g := Group(board, player, c, d);
      board.Keys - (set i | 0 <= i < |g| :: g[i]) + Targets(g, d) == board.Keys - {c}
  {
    var g := Group(board, player, c, d);
    LineGroupFacts(board, player, c, d);
    var cells := set i | 0 <= i < |g| :: g[i];
    assert g[0] == c && c in cells;
    assert cells - {c} <= Targets(g, d) by {
      forall k | k in cells - {c} ensures k in Targets(g, d) {
        var i :| 0 <= i < |g| && g[i] == k;
        assert g[i] == Step(g[i - 1], d, 1);
      }
    }
    assert c !in Targets(g, d);
  }

  /** A push of the group over a scanned run equal to the generator's run, with
      `colour` written on the pushed marbles: the group's first cell is removed,
      the cells the group moves onto hold the mover's colour, the cells the run
      is shifted onto hold `colour`, and every other key keeps its value. */
  lemma PushOutcome(board: Board, player: char, c: Cell, d: Dir, reading: PlayerValue)
    requires LegalPush(board, player, c, d)
    requires Chain(board, Beyond(board, player, c, d), d, reading) == OpponentRun(board, player, Beyond(board, player, c, d), d)
    ensures var g := Group(board, player, c, d);
      var r := OpponentRun(board, player, Beyond(board, player, c, d), d);
      var res := ApplyParsed(board, MarblesOf(g, player), d, reading);
      res.raised == None
      && res.board.Keys == board.Keys - {c}
      && forall k :: k in res.board ==>
           res.board[k] == if k in Targets(g, d) then player else if k in Targets(r, d) then ShiftColour(reading) else board[k]
  {
    var g := Group(board, player, c, d);
    var r := OpponentRun(board, player, Beyond(board, player, c, d), d);
    var ms := MarblesOf(g, player);
    LineGroupFacts(board, player, c, d);
    RunTargetsOffGroup(board, player, c, d);
    PushSteps(board, player, c, d, reading);
    var shifted := Shift(board, r, d, ShiftColour(reading));
    ShiftSpec(board, r, d, ShiftColour(reading));
    MoveAllSpec(shifted, ms, d, player);
    MarbleCellSets(g, d, player);
    PushKeys(board, player, c, d);
  }

  /** The set images of the marbles built from `cells`. */
  lemma MarbleCellSets(cells: seq<Cell>, d: Dir, p: char)
    ensures Origins(MarblesOf(cells, p)) == set i | 0 <= i < |cells| :: cells[i]
    ensures forall k :: k in Origins(MarblesOf(cells, p)) <==> k in cells
    ensures Destinations(MarblesOf(cells, p), d) == Targets(cells, d)
  {
    var ms := MarblesOf(cells, p);
    forall k | k in cells ensures k in Origins(ms) {
      var i :| 0 <= i < |cells| && cells[i] == k;
      assert ms[i].At() == k;
    }
    forall k | k in set i | 0 <= i < |cells| :: cells[i] ensures k in Origins(ms) {
      var i :| 0 <= i < |cells| && cells[i] == k;
      assert ms[i].At() == k;
    }
    forall k | k in Targets(cells, d) ensures k in Destinations(ms, d) {
      var i :| 0 <= i < |cells| && Step(cells[i], d, 1) == k;
      assert Step(ms[i].At(), d, 1) == k;
    }
  }

  /** The other colour. */
  function Opponent(player: char): char {
    if player == 'w' then 'b' else 'w'
  }

  /** As written, the scan ahead of a legal push finds the generator's run when
      the cell behind that run is free or not a key. */
  lemma ChainAsWritten(board: Board, player: char, b: Cell, d: Dir, y: int)
    requires |OpponentRun(board, player, b, d)| <= 2 && Opposing(board, player, b)
    requires var behind := Step(b, d, |OpponentRun(board, player, b, d)|); behind !in board || board[behind] == Empty
    ensures Chain(board, b, d, Coordinate(y)) == OpponentRun(board, player, b, d)
  {
    var r := OpponentRun(board, player, b, d);
    ChainUnique(board, b, d, Coordinate(y), r);
  }

  /** The push as the code is written, on a board valued in `'b'`, `'w'` and
      `'N'`, when the cell behind the run is free or off the board: the group's
      first cell is removed, the group moves one step, and the cells the run is
      shifted onto hold `'w'` whoever pushes. */
  lemma WrittenPushEffect(board: Board, player: char, c: Cell, d: Dir)
    requires LegalPush(board, player, c, d) && player in {'b', 'w'} && WellValued(board)
    requires var r := OpponentRun(board, player, Beyond(board, player, c, d), d);
      var behind := Step(Beyond(board, player, c, d), d, |r|);
      behind !in board || board[behind] == Empty
    ensures var g := Group(board, player, c, d);
      var r := OpponentRun(board, player, Beyond(board, player, c, d), d);
      var res := ApplyMoveSpec(board, Render(board, player, Current, Push(c, d)));
      res.raised == None
      && res.board.Keys == board.Keys - {c}
      && forall k :: k in res.board ==>
           res.board[k] == if k in Targets(g, d) then player else if k in Targets(r, d) then 'w' else board[k]
  {
    var g := Group(board, player, c, d);
    PushParse(board, player, c, d);
    var ms := MarblesOf(g, player);
    ChainAsWritten(board, player, Beyond(board, player, c, d), d, ms[0].y);
    PushOutcome(board, player, c, d, Coordinate(ms[0].y));
  }

  /** The push with `player` read as the colour, on a board valued in `'b'`, `'w'`
      and `'N'`: the run holds the opponent's colour, and after the push the cells
      it is shifted onto hold that same colour; the group's first cell is removed
      and the group moves one step. */
  lemma IntendedPushEffect(board: Board, player: char, c: Cell, d: Dir)
    requires LegalPush(board, player, c, d) && player in {'b', 'w'} && WellValued(board)
    ensures var g := Group(board, player, c, d);
      var r := OpponentRun(board, player, Beyond(board, player, c, d), d);
      var res := ApplyMoveIntended(board, Render(board, player, Current, Push(c, d)));
      (forall i :: 0 <= i < |r| ==> board[r[i]] == Opponent(player))
      && res.raised == None
      && res.board.Keys == board.Keys - {c}
      && forall k :: k in res.board ==>
           res.board[k] == if k in Targets(g, d) then player else if k in Targets(r, d) then Opponent(player) else board[k]
  {
    var g := Group(board, player, c, d);
    PushParse(board, player, c, d);
    RunOnBoard(board, player, c, d);
    ChainIsRun(board, player, Beyond(board, player, c, d), d);
    PushOutcome(board, player, c, d, Colour(player));
  }

  /** White pushes one black marble with two onto a free cell: as written, the
      black marble is overwritten and the cell it is pushed onto becomes white,
      so the board gains a white marble and loses the black one; read as the
      colour, that cell becomes black. */
  lemma PushTurnsBlackWhite(board: Board, c: Cell, d: Dir)
    requires WellValued(board)
    requires Holds(board, c, 'w') && Holds(board, Step(c, d, 1), 'w')
    requires Holds(board, Step(c, d, 2), 'b') && Holds(board, Step(c, d, 3), Empty)
    ensures LegalPush(board, 'w', c, d)
    ensures var t := Render(board, 'w', Current, Push(c, d));
      var written := ApplyMoveSpec(board, t).board;
      var intended := ApplyMoveIntended(board, t).board;
      Step(c, d, 3) in written && written[Step(c, d, 3)] == 'w'
      && Step(c, d, 3) in intended && intended[Step(c, d, 3)] == 'b'
  {
    var g := Group(board, 'w', c, d);
    StepFacts(c, d, 2, 1);
    StepFacts(c, d, 1, 1);
    StepFacts(c, d, 3, 0);
    assert g == [c, Step(c, d, 1)];
    assert Beyond(board, 'w', c, d) == Step(c, d, 2);
    var r := OpponentRun(board, 'w', Step(c, d, 2), d);
    assert r == [Step(c, d, 2)];
    assert Step(r[0], d, 1) == Step(c, d, 3);
    assert Step(r[0], d, 1) in Targets(r, d);
    assert Step(c, d, 3) !in Targets(g, d) by {
      StepFacts(c, d, 1, 3);
      StepFacts(c, d, 2, 3);
      StepFacts(c, d, 0, 1);
    }
    WrittenPushEffect(board, 'w', c, d);
    IntendedPushEffect(board, 'w', c, d);
  }
}
