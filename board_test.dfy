/** The board helpers of the test driver: the cell validity test and the
    unsorted token listing it prints. */
module BoardTest {
  import opened Hex
  import opened Text
  import opened GameBoard

  /** `validate_pos`: the bounds test of the hexagonal board. */
  predicate ValidatePos(x: int, y: int) {
    -4 <= x <= 4 && -4 <= y <= 4 && -4 <= x - y <= 4
  }

  /** A position is valid exactly when it is a key of the empty board. */
  lemma ValidatePosIsBoardKey(x: int, y: int)
    ensures ValidatePos(x, y) <==> Cell(x, y) in InitializeBoard()
  {
  }

  /** The three checks of the driver: `(4, 5)` and `(4, 6)` are off the board,
      `(-4, -4)` is on it. */
  lemma ValidatePosExamples()
    ensures !ValidatePos(4, 5) && ValidatePos(-4, -4) && !ValidatePos(4, 6)
  {
  }

  /** The board is symmetric under the half turn `(x, y) -> (-x, -y)`. */
  lemma ValidatePosHalfTurn(x: int, y: int)
    ensures ValidatePos(x, y) <==> ValidatePos(-x, -y)
  {
  }

  /** The tokens `print_board` builds, one per key of `order`, whatever its value. */
  function ListedTokens(board: Board, order: seq<Cell>): (ts: seq<string>)
    requires forall c :: c in order ==> c in board && IsCharCode(c.y + 69)
    ensures |ts| == |order|
    ensures forall i :: 0 <= i < |order| ==> ts[i] == Token(EntryOf(order[i], board[order[i]]))
  {
    seq(|order|, i requires 0 <= i < |order| => Token(EntryOf(order[i], board[order[i]])))
  }

  /** `print_board`: the text it prints, built from every key in the dictionary's
      own order (`order`), including the empty `'N'` cells, without sorting. */
  method PrintBoard(board: Board) returns (text: string, ghost order: seq<Cell>)
    requires RowsPrintable(board)
    ensures forall c :: c in board <==> c in order
    ensures forall i, j :: 0 <= i < j < |order| ==> order[i] != order[j]
    ensures text == JoinWith(",", ListedTokens(board, order))
  {
    var elements: seq<string> := [];
    order := [];
    var todo := board.Keys;
    while todo != {}
      invariant todo <= board.Keys
      invariant forall c :: c in order <==> c in board && c !in todo
      invariant forall i, j :: 0 <= i < j < |order| ==> order[i] != order[j]
      invariant elements == ListedTokens(board, order)
      decreases todo
    {
      var key :| key in todo;
      var value := board[key];
      var row := RowLetter(key.y);
      var column := key.x + 5;
      elements := elements + [[row] + IntToString(column) + [value]];
      order := order + [key];
      todo := todo - {key};
    }
    text := JoinWith(",", elements);
  }

  /** The printed text splits back into one token per key of the board, so the
      full board prints 61 tokens. */
  lemma {:induction false} PrintedTokenCount(board: Board, order: seq<Cell>)
    requires KeysOnBoard(board)
    requires WellValued(board)
    requires forall c :: c in board <==> c in order
    requires forall i, j :: 0 <= i < j < |order| ==> order[i] != order[j]
    requires board != map[]
    ensures |Split(JoinWith(",", ListedTokens(board, order)), ',')| == |board|
  {
    var ts := ListedTokens(board, order);
    var c0 :| c0 in board;
    assert c0 in order;
    forall t | t in ts ensures ',' !in t {
      var i :| 0 <= i < |ts| && ts[i] == t;
      TokenRoundTrip(order[i], board[order[i]]);
    }
    SplitJoin(',', ts);
    DistinctListingSize(board.Keys, order);
  }

  /** A repetition-free listing of a finite set has the set's size. */
  lemma {:induction false} DistinctListingSize(keys: set<Cell>, order: seq<Cell>)
    requires forall c :: c in keys <==> c in order
    requires forall i, j :: 0 <= i < j < |order| ==> order[i] != order[j]
    ensures |order| == |keys|
    decreases |order|
  {
    if order != [] {
      var n := |order| - 1;
      forall c ensures c in keys - {order[n]} <==> c in order[..n] {
        if c in order[..n] {
          var k :| 0 <= k < n && order[k] == c;
        }
        if c in order && c != order[n] {
          var k :| 0 <= k < |order| && order[k] == c;
          assert k < n;
          assert order[..n][k] == c;
        }
      }
      DistinctListingSize(keys - {order[n]}, order[..n]);
    } else {
      assert forall c :: c !in keys;
    }
  }
}
