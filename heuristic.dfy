/** The integer heuristics of the search: the count of marbles in danger, the
    opponent's territory and the count inside `break_opponent_formation`. */
module Heuristic {
  import opened Hex
  import opened Directions
  import GameBoard
  import Sets

  /** The opponent as the heuristics name it: white for black, black for
      anything else. */
  function OpponentOf(player: char): (opponent: char)
    ensures opponent in {'b', 'w'} && opponent != player
    ensures player in {'b', 'w'} ==> {player, opponent} == {'b', 'w'}
  {
    if player == 'b' then 'w' else 'b'
  }

  /** The six neighbour offsets the danger test looks at, in its order. */
  const Offsets: seq<(int, int)> := [(1, 0), (-1, 0), (0, 1), (0, -1), (1, 1), (-1, -1)]

  function Neighbour(c: Cell, i: nat): Cell
    requires i < 6
  {
    Cell(c.x + Offsets[i].0, c.y + Offsets[i].1)
  }

  /** The offsets are the six move directions, in the same order. */
  lemma NeighboursAreSteps(c: Cell, i: nat)
    requires i < 6
    ensures Neighbour(c, i) == Step(c, AllDirections[i], 1)
  {
  }

  /** `board.get(cell) == value`: a missing key reads as `None`, which equals no
      character. */
  predicate Reads(board: Board, c: Cell, value: char) {
    c in board && board[c] == value
  }

  /** How many of the first `k` offsets around `c` read `opponent`. */
  function NeighbourCount(board: Board, c: Cell, opponent: char, k: nat): nat
    requires k <= 6
  {
    if k == 0 then 0
    else NeighbourCount(board, c, opponent, k - 1) + (if Reads(board, Neighbour(c, k - 1), opponent) then 1 else 0)
  }

  /** The offsets around `c` (among the first `k`) that read `opponent`. */
  function OpponentOffsets(board: Board, c: Cell, opponent: char, k: nat): set<nat>
    requires k <= 6
  {
    set i | 0 <= i < k && Reads(board, Neighbour(c, i), opponent)
  }

  /** The offsets around `c` (among the first `k`) that are keys of the board. */
  function PresentOffsets(board: Board, c: Cell, k: nat): set<nat>
    requires k <= 6
  {
    set i | 0 <= i < k && Neighbour(c, i) in board
  }

  /** The running count is the number of opponent-valued neighbours, and only
      neighbours present in the board can be among them. */
  lemma {:induction false} NeighbourCountSpec(board: Board, c: Cell, opponent: char, k: nat)
    requires k <= 6
    ensures NeighbourCount(board, c, opponent, k) == |OpponentOffsets(board, c, opponent, k)|
    ensures OpponentOffsets(board, c, opponent, k) <= PresentOffsets(board, c, k)
    ensures NeighbourCount(board, c, opponent, k) <= |PresentOffsets(board, c, k)|
  {
    if k > 0 {
      NeighbourCountSpec(board, c, opponent, k - 1);
      var before := OpponentOffsets(board, c, opponent, k - 1);
      if Reads(board, Neighbour(c, k - 1), opponent) {
        assert OpponentOffsets(board, c, opponent, k) == before + {k - 1};
      } else {
        assert OpponentOffsets(board, c, opponent, k) == before;
      }
    }
    Sets.SubsetSize(OpponentOffsets(board, c, opponent, k), PresentOffsets(board, c, k));
  }

  /** A marble of `player` with at least two opponent marbles among its six
      neighbours. */
  predicate InDanger(board: Board, player: char, c: Cell) {
    Reads(board, c, player) && NeighbourCount(board, c, OpponentOf(player), 6) >= 2
  }

  function DangerCells(board: Board, player: char): set<Cell> {
    set c | c in board && InDanger(board, player, c)
  }

  /** `marbles_in_danger`: the number of the player's marbles in danger, between
      zero and the number of the player's marbles. */
  method MarblesInDanger(board: Board, player: char) returns (dangerCount: nat)
    ensures dangerCount == |DangerCells(board, player)|
    ensures dangerCount <= |GameBoard.ColourCells(board, player)|
  {
    dangerCount := 0;
    var opponent := OpponentOf(player);
    var todo := board.Keys;
    ghost var counted: set<Cell> := {};
    while todo != {}
      invariant todo <= board.Keys
      invariant forall c :: c in counted <==> c in board && c !in todo && InDanger(board, player, c)
      invariant dangerCount == |counted|
      decreases todo
    {
      var c :| c in todo;
      if board[c] == player {
        var opponentNeighbours := 0;
        for i := 0 to 6
          invariant opponentNeighbours == NeighbourCount(board, c, opponent, i)
        {
          var n := Neighbour(c, i);
          if n in board && board[n] == opponent {
            opponentNeighbours := opponentNeighbours + 1;
          }
        }
        if opponentNeighbours >= 2 {
          counted := counted + {c};
          dangerCount := dangerCount + 1;
        }
      }
      todo := todo - {c};
    }
    assert counted == DangerCells(board, player);
    Sets.SubsetSize(DangerCells(board, player), GameBoard.ColourCells(board, player));
  }

  /** Neighbours missing from the board never count: a marble with fewer than
      two neighbouring keys is never in danger. */
  lemma IsolatedNotInDanger(board: Board, player: char, c: Cell)
    requires |PresentOffsets(board, c, 6)| < 2
    ensures c !in DangerCells(board, player)
  {
    NeighbourCountSpec(board, c, OpponentOf(player), 6);
  }

  /** A marble is in danger iff at least two distinct offsets around it hold
      the opponent. */
  lemma InDangerSpec(board: Board, player: char, c: Cell)
    ensures c in DangerCells(board, player) <==>
      Reads(board, c, player) && |OpponentOffsets(board, c, OpponentOf(player), 6)| >= 2
  {
    NeighbourCountSpec(board, c, OpponentOf(player), 6);
  }

  /** `opponent_territory`: the opponent's marbles with `x + y > 1`. */
  function OpponentTerritory(board: Board, opponent: char): (territory: set<Cell>)
    ensures territory <= GameBoard.ColourCells(board, opponent)
  {
    set c | c in board && board[c] == opponent && c.x + c.y > 1
  }

  /** Territory cells hold the opponent, so no other value shares them. */
  lemma TerritoryDisjoint(board: Board, opponent: char, value: char)
    requires value != opponent
    ensures OpponentTerritory(board, opponent) * GameBoard.ColourCells(board, value) == {}
  {
    forall c | c in OpponentTerritory(board, opponent)
      ensures c !in GameBoard.ColourCells(board, value)
    {
      assert board[c] == opponent;
    }
  }

  /** The integer count inside `break_opponent_formation`: the player's marbles
      standing in the opponent's territory (each board key is visited once). */
  function FormationCount(board: Board, player: char): nat {
    |set c | c in board && board[c] == player && c in OpponentTerritory(board, OpponentOf(player))|
  }

  /** The count is always zero: territory cells hold the opponent's colour,
      counted cells the player's, and the two colours differ for every player. */
  lemma FormationCountZero(board: Board, player: char)
    ensures FormationCount(board, player) == 0
  {
    var counted := set c | c in board && board[c] == player && c in OpponentTerritory(board, OpponentOf(player));
    TerritoryDisjoint(board, OpponentOf(player), player);
    assert counted <= OpponentTerritory(board, OpponentOf(player)) * GameBoard.ColourCells(board, player);
    assert counted == {};
  }
}
