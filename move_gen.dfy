/** The three move generators. Each walks the board dictionary, and from every
    cell holding the player's colour tries the six directions in `DIRECTIONS`
    order. The dictionary's iteration order is not modelled: cells are taken in
    an unspecified order, so the generators are specified by the exact set of
    moves they emit, each once, together with the string emitted for each. */
module MoveGen {
  import opened Hex
  import opened Directions
  import opened MoveRules
  import opened MoveText
  import GameBoard
  import Sets
  import opened Text

  /** Every emitted move differs from every other. */
  ghost predicate Distinct(found: seq<Move>) {
    forall i, j :: 0 <= i < j < |found| ==> found[i] != found[j]
  }

  /** `R` holds of the strings and the moves, position by position. Stated from
      the last position back, so that the solver unfolds it one position at a time. */
  ghost predicate Pairwise(moves: seq<string>, found: seq<Move>, R: (string, Move) -> bool)
    decreases |found|
  {
    |moves| == |found|
    && (found != [] ==>
          Pairwise(moves[..|moves| - 1], found[..|found| - 1], R) && R(moves[|moves| - 1], found[|found| - 1]))
  }

  /** The position-by-position reading of `Pairwise`. */
  lemma {:induction false} PairwiseAt(moves: seq<string>, found: seq<Move>, R: (string, Move) -> bool)
    requires Pairwise(moves, found, R)
    ensures |moves| == |found| && forall i :: 0 <= i < |found| ==> R(moves[i], found[i])
    decreases |found|
  {
    if found != [] {
      PairwiseAt(moves[..|moves| - 1], found[..|found| - 1], R);
    }
  }

  /** A move is legal and the string is its rendering. */
  ghost function Renders(board: Board, player: char, format: Format): (string, Move) -> bool {
    (s: string, m: Move) => Legal(board, player, m) && s == Render(board, player, format, m)
  }

  /** The strings are the renderings of the moves, one for one. */
  ghost predicate Rendered(board: Board, player: char, format: Format, moves: seq<string>, found: seq<Move>) {
    Pairwise(moves, found, Renders(board, player, format))
  }

  // ---------------------------------------------------------------------------
  // The scanning loops shared by the generators

  /** The `for i in range(1, 3)` loop that collects the group. */
  method CollectGroup(board: Board, player: char, c: Cell, d: Dir) returns (inline: seq<Cell>)
    ensures inline == Group(board, player, c, d)
  {
    inline := [c];
    var i := 1;
    while i < 3
      invariant 1 <= i <= 3 && |inline| == i
      invariant forall k :: 0 <= k < i ==> inline[k] == Step(c, d, k)
      invariant forall k :: 1 <= k < i ==> Holds(board, Step(c, d, k), player)
    {
      var next := Step(c, d, i);
      if next in board && board[next] == player {
        inline := inline + [next];
        i := i + 1;
      } else {
        break;
      }
    }
  }

  /** The loop that collects at most three opposing cells from `first` on. */
  method CollectRun(board: Board, player: char, first: Cell, d: Dir) returns (run: seq<Cell>)
    ensures run == OpponentRun(board, player, first, d)
  {
    run := [first];
    var i := 1;
    while i < 3
      invariant 1 <= i <= 3 && |run| == i
      invariant forall k :: 0 <= k < i ==> run[k] == Step(first, d, k)
      invariant forall k :: 1 <= k < i ==> Opposing(board, player, Step(first, d, k))
    {
      var next := Step(first, d, i);
      if next in board && board[next] != Empty && board[next] != player {
        run := run + [next];
        i := i + 1;
      } else {
        break;
      }
    }
  }

  /** The loop that collects side-step destinations until one is not free. */
  method CollectSideMoved(board: Board, group: seq<Cell>, side: Dir) returns (moved: seq<Cell>)
    ensures |moved| <= |group|
    ensures |moved| == |group| <==> forall i :: 0 <= i < |group| ==> Holds(board, Step(group[i], side, 1), Empty)
    ensures |moved| == |group| ==> moved == Shifted(group, side)
  {
    moved := [];
    var i := 0;
    while i < |group|
      invariant 0 <= i <= |group| && |moved| == i
      invariant forall k :: 0 <= k < i ==> moved[k] == Step(group[k], side, 1) && Holds(board, moved[k], Empty)
    {
      var next := Step(group[i], side, 1);
      if next in board && board[next] == Empty {
        moved := moved + [next];
        i := i + 1;
      } else {
        break;
      }
    }
  }

  // ---------------------------------------------------------------------------
  // get_single_moves

  /** One direction tried from one cell: emitted when the neighbour is free. */
  method SingleMoveToward(board: Board, player: char, c: Cell, d: Dir) returns (moves: seq<string>, ghost found: seq<Move>)
    requires Holds(board, c, player)
    ensures Rendered(board, player, Current, moves, found) && Distinct(found) && |found| <= 1
    ensures forall m :: m in found <==> m == Single(c, d) && Legal(board, player, m)
  {
    moves, found := [], [];
    var next := Step(c, d, 1);
    if next in board && board[next] == Empty {
      var moveStr := MarbleText(c, player) + [Symbol(d)] + MarbleText(next, player);
      SingleRenders(board, player, c, d);
      PairwiseSnoc([], [], moveStr, Single(c, d), Renders(board, player, Current));
      moves, found := [moveStr], [Single(c, d)];
    }
  }

  /** The six directions tried from one cell holding the player's colour. */
  method SingleMovesFrom(board: Board, player: char, c: Cell) returns (moves: seq<string>, ghost found: seq<Move>)
    requires Holds(board, c, player)
    ensures Rendered(board, player, Current, moves, found) && Distinct(found)
    ensures forall m :: m in found <==> m.Single? && m.origin == c && Legal(board, player, m)
    ensures |found| <= 6
  {
    moves, found := [], [];
    for k := 0 to 6
      invariant Rendered(board, player, Current, moves, found) && Distinct(found)
      invariant forall m :: m in found <==> m.Single? && m.origin == c && Index(m.dir) < k && Legal(board, player, m)
      invariant |found| <= k
    {
      var more;
      ghost var moreFound;
      IndexAt(k);
      more, moreFound := SingleMoveToward(board, player, c, AllDirections[k]);
      AppendPairwise(moves, found, more, moreFound, Renders(board, player, Current));
      AppendDisjoint(found, moreFound);
      moves, found := moves + more, found + moreFound;
    }
  }

  /** `get_single_moves`: every single-marble move of `player`, each once. */
  method GetSingleMoves(player: char, board: Board) returns (moves: seq<string>, ghost found: seq<Move>)
    ensures Rendered(board, player, Current, moves, found) && Distinct(found)
    ensures forall m :: m in found <==> m.Single? && Legal(board, player, m)
    ensures |moves| <= 6 * |GameBoard.ColourCells(board, player)|
  {
    moves, found := [], [];
    var todo := board.Keys;
    ghost var want := (m: Move) => m.Single? && Legal(board, player, m);
    ghost var seen: set<Cell> := {};
    while todo != {}
      invariant todo <= board.Keys
      invariant Rendered(board, player, Current, moves, found) && Distinct(found)
      invariant forall m :: m in found <==> want(m) && m.origin !in todo
      invariant seen <= GameBoard.ColourCells(board, player) && seen !! todo
      invariant |found| <= 6 * |seen|
      decreases todo
    {
      var c :| c in todo;
      todo := todo - {c};
      if board[c] == player {
        var more;
        ghost var moreFound;
        more, moreFound := SingleMovesFrom(board, player, c);
        JoinOrigin(board, player, Current, want, moves, found, more, moreFound, c, todo);
        moves, found := moves + more, found + moreFound;
        seen := seen + {c};
      } else {
        SkipOrigin(want, found, c, todo);
      }
    }
    Sets.SubsetSize(seen, GameBoard.ColourCells(board, player));
  }

  // ---------------------------------------------------------------------------
  // get_inline_moves

  /** The inline move, or push, along one direction from one cell, if any. */
  method InlineMoveAlong(board: Board, player: char, format: Format, c: Cell, d: Dir)
    returns (moves: seq<string>, ghost found: seq<Move>)
    requires Holds(board, c, player)
    ensures Rendered(board, player, format, moves, found) && Distinct(found)
    ensures forall m :: m in found <==> (m == Inline(c, d) || m == Push(c, d)) && Legal(board, player, m)
  {
    moves, found := [], [];
    var inline := CollectGroup(board, player, c, d);
    InlineBranch(board, player, c, d);
    if |inline| >= 2 {
      var move := Step(inline[|inline| - 1], d, 1);
      StepFacts(c, d, |inline| - 1, 1);
      assert move == Beyond(board, player, c, d);
      if move !in board {
        return;
      }
      var destination := board[move];
      if destination == Empty {
        var moveStr := GroupText(inline, player) + [Symbol(d)] + MarbleText(move, player);
        InlineEmitted(board, player, format, c, d);
        moves, found := [moveStr], [Inline(c, d)];
      } else if destination != player {
        moves, found := PushAlong(board, player, format, c, d, inline, move);
      }
    }
  }

  /** The push branch: the cell beyond the group holds an opposing marble. */
  method PushAlong(board: Board, player: char, format: Format, c: Cell, d: Dir, inline: seq<Cell>, move: Cell)
    returns (moves: seq<string>, ghost found: seq<Move>)
    requires Holds(board, c, player) && inline == Group(board, player, c, d) && |inline| >= 2
    requires move == Beyond(board, player, c, d) && Opposing(board, player, move)
    ensures Rendered(board, player, format, moves, found) && Distinct(found)
    ensures forall m :: m in found <==> (m == Inline(c, d) || m == Push(c, d)) && Legal(board, player, m)
  {
    moves, found := [], [];
    var opponents := CollectRun(board, player, move, d);
    PushBranch(board, player, c, d);
    if |inline| > |opponents| && |opponents| <= 2 {
      RunOnBoard(board, player, c, d);
      var tail := if format == Current then CurrentPushTail(board, opponents) else LegacyPushTail(move, player);
      var moveStr := GroupText(inline, player) + [Symbol(d)] + tail;
      PushEmitted(board, player, format, c, d, opponents);
      moves, found := [moveStr], [Push(c, d)];
    }
  }

  /** The inline move is legal exactly when the group has two or three marbles
      and the cell beyond is a key valued `'N'`; a push needs that cell opposing. */
  lemma InlineBranch(board: Board, player: char, c: Cell, d: Dir)
    requires Holds(board, c, player)
    ensures Legal(board, player, Inline(c, d)) <==>
      |Group(board, player, c, d)| >= 2 && Holds(board, Beyond(board, player, c, d), Empty)
    ensures Legal(board, player, Push(c, d)) ==>
      |Group(board, player, c, d)| >= 2 && Opposing(board, player, Beyond(board, player, c, d))
  {
  }

  /** The one-move list of a legal inline move is rendered. */
  lemma InlineEmitted(board: Board, player: char, format: Format, c: Cell, d: Dir)
    requires LegalInline(board, player, c, d)
    ensures Rendered(board, player, format,
              [GroupText(Group(board, player, c, d), player) + [Symbol(d)] + MarbleText(Beyond(board, player, c, d), player)],
              [Inline(c, d)])
  {
    InlineRenders(board, player, format, c, d);
    PairwiseSnoc([], [], GroupText(Group(board, player, c, d), player) + [Symbol(d)] + MarbleText(Beyond(board, player, c, d), player),
                 Inline(c, d), Renders(board, player, format));
  }

  /** Where the cell beyond the group is opposing, the inline move is never legal
      and the push is legal exactly when the arity rule holds. */
  lemma PushBranch(board: Board, player: char, c: Cell, d: Dir)
    requires Holds(board, c, player) && |Group(board, player, c, d)| >= 2
    requires Opposing(board, player, Beyond(board, player, c, d))
    ensures !Legal(board, player, Inline(c, d))
    ensures var r := OpponentRun(board, player, Beyond(board, player, c, d), d);
      Legal(board, player, Push(c, d)) <==> |Group(board, player, c, d)| > |r| && |r| <= 2
  {
  }

  /** The one-move list of a legal push is rendered. */
  lemma PushEmitted(board: Board, player: char, format: Format, c: Cell, d: Dir, run: seq<Cell>)
    requires LegalPush(board, player, c, d)
    requires run == OpponentRun(board, player, Beyond(board, player, c, d), d)
    requires forall i :: 0 <= i < |run| ==> run[i] in board
    ensures Rendered(board, player, format,
              [GroupText(Group(board, player, c, d), player) + [Symbol(d)]
               + (if format == Current then CurrentPushTail(board, run) else LegacyPushTail(Beyond(board, player, c, d), player))],
              [Push(c, d)])
  {
    PushRenders(board, player, format, c, d, run);
    PairwiseSnoc([], [], GroupText(Group(board, player, c, d), player) + [Symbol(d)]
                 + (if format == Current then CurrentPushTail(board, run) else LegacyPushTail(Beyond(board, player, c, d), player)),
                 Push(c, d), Renders(board, player, format));
  }

  /** The moves `get_inline_moves` emits: inline moves and pushes. */
  predicate LineMove(m: Move) {
    m.Inline? || m.Push?
  }

  /** The six directions tried from one cell holding the player's colour. */
  method InlineMovesFrom(board: Board, player: char, format: Format, c: Cell)
    returns (moves: seq<string>, ghost found: seq<Move>)
    requires Holds(board, c, player)
    ensures Rendered(board, player, format, moves, found) && Distinct(found)
    ensures forall m :: m in found <==> LineMove(m) && m.origin == c && Legal(board, player, m)
  {
    moves, found := [], [];
    for k := 0 to 6
      invariant Rendered(board, player, format, moves, found) && Distinct(found)
      invariant forall m :: m in found <==> LineMove(m) && m.origin == c && Index(m.dir) < k && Legal(board, player, m)
    {
      var d := AllDirections[k];
      IndexAt(k);
      var more;
      ghost var moreFound;
      more, moreFound := InlineMoveAlong(board, player, format, c, d);
      AppendPairwise(moves, found, more, moreFound, Renders(board, player, format));
      AppendDisjoint(found, moreFound);
      moves, found := moves + more, found + moreFound;
    }
  }

  /** `get_inline_moves`: every inline move and every push of `player`, each once,
      in the newer or the older string format. */
  method GetInlineMoves(player: char, board: Board, format: Format) returns (moves: seq<string>, ghost found: seq<Move>)
    ensures Rendered(board, player, format, moves, found) && Distinct(found)
    ensures forall m :: m in found <==> LineMove(m) && Legal(board, player, m)
  {
    moves, found := [], [];
    var todo := board.Keys;
    ghost var want := (m: Move) => LineMove(m) && Legal(board, player, m);
    while todo != {}
      invariant todo <= board.Keys
      invariant Rendered(board, player, format, moves, found) && Distinct(found)
      invariant forall m :: m in found <==> want(m) && m.origin !in todo
      decreases todo
    {
      var c :| c in todo;
      todo := todo - {c};
      if board[c] == player {
        var more;
        ghost var moreFound;
        more, moreFound := InlineMovesFrom(board, player, format, c);
        JoinOrigin(board, player, format, want, moves, found, more, moreFound, c, todo);
        moves, found := moves + more, found + moreFound;
      } else {
        SkipOrigin(want, found, c, todo);
      }
    }
  }

  // ---------------------------------------------------------------------------
  // get_side_step_moves

  /** One side direction tried for the group aligned along `align`: skipped when
      it is the alignment or its opposite, emitted when every destination is free. */
  method SideStepToward(board: Board, player: char, format: Format, c: Cell, align: Dir, aligned: seq<Cell>, side: Dir)
    returns (moves: seq<string>, ghost found: seq<Move>)
    requires Holds(board, c, player)
    requires aligned == Group(board, player, c, align) && |aligned| >= 2
    ensures Rendered(board, player, format, moves, found) && Distinct(found)
    ensures forall m :: m in found <==> m == SideStep(c, align, side) && Legal(board, player, m)
  {
    moves, found := [], [];
    OppositeDirectionSpec(align);
    SymbolInjective(side, Opposite(align));
    SymbolInjective(side, align);
    if Symbol(side) == Symbol(align) || Some(Symbol(side)) == OppositeDirection(Symbol(align)) {
      return;
    }
    var sideMoved := CollectSideMoved(board, aligned, side);
    if |sideMoved| == |aligned| {
      var moveStr := if format == Current
        then GroupText(aligned, player) + [Symbol(side)] + "s" + GroupText(sideMoved, player)
        else JoinWith(" + ", PairTexts(aligned, side, player));
      SideStepRenders(board, player, format, c, align, side);
      PairwiseSnoc([], [], moveStr, SideStep(c, align, side), Renders(board, player, format));
      moves, found := [moveStr], [SideStep(c, align, side)];
    }
  }

  /** The side directions tried for the group aligned along `align`. */
  method SideStepsAlong(board: Board, player: char, format: Format, c: Cell, align: Dir, aligned: seq<Cell>)
    returns (moves: seq<string>, ghost found: seq<Move>)
    requires Holds(board, c, player)
    requires aligned == Group(board, player, c, align) && |aligned| >= 2
    ensures Rendered(board, player, format, moves, found) && Distinct(found)
    ensures forall m :: m in found <==> m.SideStep? && m.origin == c && m.align == align && Legal(board, player, m)
  {
    moves, found := [], [];
    for k := 0 to 6
      invariant Rendered(board, player, format, moves, found) && Distinct(found)
      invariant forall m :: m in found <==>
        m.SideStep? && m.origin == c && m.align == align && Index(m.side) < k && Legal(board, player, m)
    {
      var more;
      ghost var moreFound;
      IndexAt(k);
      more, moreFound := SideStepToward(board, player, format, c, align, aligned, AllDirections[k]);
      AppendPairwise(moves, found, more, moreFound, Renders(board, player, format));
      AppendDisjoint(found, moreFound);
      moves, found := moves + more, found + moreFound;
    }
  }

  /** The six alignments tried from one cell holding the player's colour. */
  method SideStepMovesFrom(board: Board, player: char, format: Format, c: Cell)
    returns (moves: seq<string>, ghost found: seq<Move>)
    requires Holds(board, c, player)
    ensures Rendered(board, player, format, moves, found) && Distinct(found)
    ensures forall m :: m in found <==> m.SideStep? && m.origin == c && Legal(board, player, m)
  {
    moves, found := [], [];
    for k := 0 to 6
      invariant Rendered(board, player, format, moves, found) && Distinct(found)
      invariant forall m :: m in found <==> m.SideStep? && m.origin == c && Index(m.align) < k && Legal(board, player, m)
    {
      var align := AllDirections[k];
      IndexAt(k);
      var aligned := CollectGroup(board, player, c, align);
      if |aligned| >= 2 {
        var more;
        ghost var moreFound;
        more, moreFound := SideStepsAlong(board, player, format, c, align, aligned);
        AppendPairwise(moves, found, more, moreFound, Renders(board, player, format));
        AppendDisjoint(found, moreFound);
        moves, found := moves + more, found + moreFound;
      }
    }
  }

  /** `get_side_step_moves`: every side-step of `player`, each once, in the newer
      or the older string format. */
  method GetSideStepMoves(player: char, board: Board, format: Format) returns (moves: seq<string>, ghost found: seq<Move>)
    ensures Rendered(board, player, format, moves, found) && Distinct(found)
    ensures forall m :: m in found <==> m.SideStep? && Legal(board, player, m)
  {
    moves, found := [], [];
    var todo := board.Keys;
    ghost var want := (m: Move) => m.SideStep? && Legal(board, player, m);
    while todo != {}
      invariant todo <= board.Keys
      invariant Rendered(board, player, format, moves, found) && Distinct(found)
      invariant forall m :: m in found <==> want(m) && m.origin !in todo
      decreases todo
    {
      var c :| c in todo;
      todo := todo - {c};
      if board[c] == player {
        var more;
        ghost var moreFound;
        more, moreFound := SideStepMovesFrom(board, player, format, c);
        JoinOrigin(board, player, format, want, moves, found, more, moreFound, c, todo);
        moves, found := moves + more, found + moreFound;
      } else {
        SkipOrigin(want, found, c, todo);
      }
    }
  }

  // ---------------------------------------------------------------------------
  // Helpers for the outer loops

  /** Joining the wanted moves from a fresh origin `c` keeps the list
      repetition-free and makes it cover `c` too. */
  lemma JoinOrigin(board: Board, player: char, format: Format, want: Move -> bool,
                    moves: seq<string>, found: seq<Move>, more: seq<string>, moreFound: seq<Move>, c: Cell, todo: set<Cell>)
    requires Rendered(board, player, format, moves, found) && Rendered(board, player, format, more, moreFound)
    requires Distinct(found) && Distinct(moreFound) && c !in todo
    requires forall m :: m in found <==> want(m) && m.origin !in todo + {c}
    requires forall m :: m in moreFound <==> want(m) && m.origin == c
    ensures Rendered(board, player, format, moves + more, found + moreFound) && Distinct(found + moreFound)
    ensures forall m :: m in found + moreFound <==> want(m) && m.origin !in todo
  {
    AppendDistinct(found, moreFound, c, todo + {c});
    AppendPairwise(moves, found, more, moreFound, Renders(board, player, format));
  }

  /** An origin from which no wanted move starts adds nothing. */
  lemma SkipOrigin(want: Move -> bool, found: seq<Move>, c: Cell, todo: set<Cell>)
    requires c !in todo && forall m: Move :: m.origin == c ==> !want(m)
    requires forall m :: m in found <==> want(m) && m.origin !in todo + {c}
    ensures forall m :: m in found <==> want(m) && m.origin !in todo
  {
  }

  /** Joining the moves of a fresh origin `c` keeps the list repetition-free. */
  lemma AppendDistinct(found: seq<Move>, more: seq<Move>, c: Cell, pending: set<Cell>)
    requires Distinct(found) && Distinct(more)
    requires c in pending
    requires forall m :: m in found ==> m.origin !in pending
    requires forall m :: m in more ==> m.origin == c
    ensures Distinct(found + more)
  {
    var all := found + more;
    forall i, j | 0 <= i < j < |all| ensures all[i] != all[j] {
      if i < |found| && j >= |found| {
        assert all[i] in found && all[j] in more;
      }
    }
  }

  /** Two rendered lists joined are rendered. */
  lemma {:induction false} AppendPairwise(moves: seq<string>, found: seq<Move>, more: seq<string>, moreFound: seq<Move>,
                                          R: (string, Move) -> bool)
    requires Pairwise(moves, found, R) && Pairwise(more, moreFound, R)
    ensures Pairwise(moves + more, found + moreFound, R)
    decreases |moreFound|
  {
    if moreFound == [] {
      assert moves + more == moves && found + moreFound == found;
    } else {
      var n := |moreFound| - 1;
      AppendPairwise(moves, found, more[..n], moreFound[..n], R);
      assert (moves + more)[..|moves| + n] == moves + more[..n];
      assert (found + moreFound)[..|found| + n] == found + moreFound[..n];
    }
  }

  lemma PairwiseSnoc(moves: seq<string>, found: seq<Move>, s: string, m: Move, R: (string, Move) -> bool)
    requires Pairwise(moves, found, R) && R(s, m)
    ensures Pairwise(moves + [s], found + [m], R)
  {
    assert (moves + [s])[..|moves|] == moves;
    assert (found + [m])[..|found|] == found;
  }

  // ---------------------------------------------------------------------------
  // The string emitted for each kind of move is its rendering

  lemma SingleRenders(board: Board, player: char, c: Cell, d: Dir)
    requires Holds(board, c, player) && Holds(board, Step(c, d, 1), Empty)
    ensures Renders(board, player, Current)(MarbleText(c, player) + [Symbol(d)] + MarbleText(Step(c, d, 1), player), Single(c, d))
  {
  }

  lemma InlineRenders(board: Board, player: char, format: Format, c: Cell, d: Dir)
    requires LegalInline(board, player, c, d)
    ensures Renders(board, player, format)(
      GroupText(Group(board, player, c, d), player) + [Symbol(d)] + MarbleText(Beyond(board, player, c, d), player),
      Inline(c, d))
  {
  }

  lemma PushRenders(board: Board, player: char, format: Format, c: Cell, d: Dir, run: seq<Cell>)
    requires LegalPush(board, player, c, d)
    requires run == OpponentRun(board, player, Beyond(board, player, c, d), d)
    requires forall i :: 0 <= i < |run| ==> run[i] in board
    ensures Renders(board, player, format)(
              GroupText(Group(board, player, c, d), player) + [Symbol(d)]
              + (if format == Current then CurrentPushTail(board, run) else LegacyPushTail(Beyond(board, player, c, d), player)),
              Push(c, d))
  {
  }

  lemma SideStepRenders(board: Board, player: char, format: Format, c: Cell, align: Dir, side: Dir)
    requires LegalSideStep(board, player, c, align, side)
    ensures var g := Group(board, player, c, align);
            Renders(board, player, format)(
              if format == Current then GroupText(g, player) + [Symbol(side)] + "s" + GroupText(Shifted(g, side), player)
              else JoinWith(" + ", PairTexts(g, side, player)),
              SideStep(c, align, side))
  {
  }

  /** Joining two repetition-free lists with no move in common. */
  lemma AppendDisjoint(found: seq<Move>, more: seq<Move>)
    requires Distinct(found) && Distinct(more)
    requires forall m :: m in found ==> m !in more
    ensures Distinct(found + more)
  {
    var all := found + more;
    forall i, j | 0 <= i < j < |all| ensures all[i] != all[j] {
      if i < |found| && j >= |found| {
        assert all[i] in found && all[j] in more;
      }
    }
  }
}
