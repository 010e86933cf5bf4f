/** The legality rules behind the three move generators: the group of up to
    three friendly marbles in a line, the opposing run in front of it, and the
    conditions under which each kind of move is emitted. */
module MoveRules {
  import opened Hex
  import opened Directions

  /** Is `c` a key of the board holding `value`? */
  predicate Holds(board: Board, c: Cell, value: char) {
    c in board && board[c] == value
  }

  /** The group starting at `c`: `c` and then up to two further consecutive
      cells along `d` holding `player`. */
  function Group(board: Board, player: char, c: Cell, d: Dir): (g: seq<Cell>)
    ensures 1 <= |g| <= 3
    ensures forall i :: 0 <= i < |g| ==> g[i] == Step(c, d, i)
  {
    if Holds(board, Step(c, d, 1), player) then
      if Holds(board, Step(c, d, 2), player) then [c, Step(c, d, 1), Step(c, d, 2)]
      else [c, Step(c, d, 1)]
    else [c]
  }

  /** The cell just beyond the lead marble of the group. */
  function Beyond(board: Board, player: char, c: Cell, d: Dir): Cell {
    Step(c, d, |Group(board, player, c, d)|)
  }

  /** Whether a cell counts as opposing in the push scan: a key whose value is
      neither `'N'` nor the mover's. */
  predicate Opposing(board: Board, player: char, c: Cell) {
    c in board && board[c] != Empty && board[c] != player
  }

  /** The run collected from `first` (already known to be opposing): it and up to
      two further consecutive opposing cells along `d`. */
  function OpponentRun(board: Board, player: char, first: Cell, d: Dir): (r: seq<Cell>)
    ensures 1 <= |r| <= 3
    ensures forall i :: 0 <= i < |r| ==> r[i] == Step(first, d, i)
  {
    if Opposing(board, player, Step(first, d, 1)) then
      if Opposing(board, player, Step(first, d, 2)) then [first, Step(first, d, 1), Step(first, d, 2)]
      else [first, Step(first, d, 1)]
    else [first]
  }

  /** A single-marble move: from a `player` cell to a neighbouring key valued `'N'`. */
  predicate LegalSingle(board: Board, player: char, c: Cell, d: Dir) {
    Holds(board, c, player) && Holds(board, Step(c, d, 1), Empty)
  }

  /** An inline move into empty space: a group of two or three whose next cell is
      a key valued `'N'`. */
  predicate LegalInline(board: Board, player: char, c: Cell, d: Dir) {
    Holds(board, c, player) && |Group(board, player, c, d)| >= 2
    && Holds(board, Beyond(board, player, c, d), Empty)
  }

  /** A push (sumito): a group of two or three meeting an opposing cell, whose
      collected run is shorter than the group and at most two long. The cell
      behind the run is not consulted. */
  predicate LegalPush(board: Board, player: char, c: Cell, d: Dir) {
    var g := Group(board, player, c, d);
    var b := Beyond(board, player, c, d);
    Holds(board, c, player) && |g| >= 2 && Opposing(board, player, b)
    && |g| > |OpponentRun(board, player, b, d)| && |OpponentRun(board, player, b, d)| <= 2
  }

  /** A side-step: a group of two or three aligned along `align` moving sideways
      along `side`, which is neither `align` nor its opposite, every destination
      being a key valued `'N'`. */
  predicate LegalSideStep(board: Board, player: char, c: Cell, align: Dir, side: Dir) {
    var g := Group(board, player, c, align);
    Holds(board, c, player) && |g| >= 2 && side != align && side != Opposite(align)
    && forall i :: 0 <= i < |g| ==> Holds(board, Step(g[i], side, 1), Empty)
  }

  /** A generated move, as the data its string is built from. */
  datatype Move =
    | Single(origin: Cell, dir: Dir)
    | Inline(origin: Cell, dir: Dir)
    | Push(origin: Cell, dir: Dir)
    | SideStep(origin: Cell, align: Dir, side: Dir)

  /** The rule a move of each kind satisfies when the generators emit it. */
  predicate Legal(board: Board, player: char, m: Move) {
    match m
    case Single(c, d) => LegalSingle(board, player, c, d)
    case Inline(c, d) => LegalInline(board, player, c, d)
    case Push(c, d) => LegalPush(board, player, c, d)
    case SideStep(c, a, s) => LegalSideStep(board, player, c, a, s)
  }

  // ---------------------------------------------------------------------------
  // Properties of the rules

  /** The group is made of `player` cells, consecutive along the direction, and
      stops before a cell that is not `player` unless it is already three long. */
  lemma GroupShape(board: Board, player: char, c: Cell, d: Dir)
    requires Holds(board, c, player)
    ensures var g := Group(board, player, c, d);
      (forall i :: 0 <= i < |g| ==> Holds(board, g[i], player))
      && (|g| < 3 ==> !Holds(board, Step(c, d, |g|), player))
  {
  }

  /** Inline moves: the group has 2 or 3 consecutive `player` cells and the cell
      beyond the lead marble is a key of the board; it is `'N'` for a plain move
      and opposing for a push. */
  lemma InlineShape(board: Board, player: char, c: Cell, d: Dir)
    requires LegalInline(board, player, c, d) || LegalPush(board, player, c, d)
    ensures var g := Group(board, player, c, d);
      2 <= |g| <= 3 && (forall i :: 0 <= i < |g| ==> Holds(board, Step(c, d, i), player))
      && Beyond(board, player, c, d) in board
      && (LegalInline(board, player, c, d) <==> board[Beyond(board, player, c, d)] == Empty)
  {
  }

  /** The push arities: the run is shorter than the group and at most two long,
      so exactly 2-against-1, 3-against-1 and 3-against-2 are pushes. */
  lemma PushArity(board: Board, player: char, c: Cell, d: Dir)
    requires Holds(board, c, player) && |Group(board, player, c, d)| >= 2
    requires Opposing(board, player, Beyond(board, player, c, d))
    ensures var n := |Group(board, player, c, d)|;
      var m := |OpponentRun(board, player, Beyond(board, player, c, d), d)|;
      LegalPush(board, player, c, d) <==> (n, m) in {(2, 1), (3, 1), (3, 2)}
  {
  }

  /** The rule never looks behind the run: two marbles pushing one opposing
      marble is legal even when the cell behind it holds one of the mover's own
      marbles, which has nowhere to go. */
  lemma PushIgnoresCellBehindRun(board: Board, player: char, other: char, c: Cell, d: Dir)
    requires other != Empty && other != player
    requires Holds(board, c, player) && Holds(board, Step(c, d, 1), player)
    requires Holds(board, Step(c, d, 2), other) && Holds(board, Step(c, d, 3), player)
    ensures LegalPush(board, player, c, d)
    ensures OpponentRun(board, player, Beyond(board, player, c, d), d) == [Step(c, d, 2)]
  {
    assert Step(Step(c, d, 2), d, 1) == Step(c, d, 3);
  }

  /** A side-step moves across the line of the group, never along it. */
  lemma SideStepDirections(board: Board, player: char, c: Cell, align: Dir, side: Dir)
    requires LegalSideStep(board, player, c, align, side)
    ensures side != align && side != Opposite(align)
    ensures Dx(side) != Dx(align) || Dy(side) != Dy(align)
    ensures Dx(side) != -Dx(align) || Dy(side) != -Dy(align)
  {
  }
}
