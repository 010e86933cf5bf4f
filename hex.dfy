/** Shared vocabulary of the rules engine: axial cells, the board dictionary,
    the `(x, y, colour)` marble triples and the exceptions the engine raises. */
module Hex {

  /** An axial cell `(x, y)`, the key type of every board dictionary. */
  datatype Cell = Cell(x: int, y: int)

  /** A board dictionary: cell to one-character value, `'b'`, `'w'` or `'N'` (empty). */
  type Board = map<Cell, char>

  /** The value of an empty cell. */
  const Empty: char := 'N'

  /** A marble triple `(x, y, colour)`, as listed by the starting layouts and as
      extracted from move strings. */
  datatype Marble = Marble(x: int, y: int, colour: char) {
    function At(): Cell { Cell(x, y) }
  }

  /** The 61 cells of the hexagonal board: `-4 <= x, y <= 4` and `-4 <= x - y <= 4`. */
  predicate OnBoard(c: Cell) {
    -4 <= c.x <= 4 && -4 <= c.y <= 4 && -4 <= c.x - c.y <= 4
  }

  /** A board whose values are the three the engine writes. */
  predicate WellValued(board: Board) {
    forall c :: c in board ==> board[c] in {'b', 'w', Empty}
  }

  /** The Python exceptions the modelled code can raise. */
  datatype PyError = ValueError | IndexError | KeyError

  datatype Option<+T> = None | Some(value: T)

  datatype Result<+T> = Ok(value: T) | Err(error: PyError)
}

/** Facts about finite sets used by the counting arguments. */
module Sets {

  /** A subset is no larger than the set containing it. */
  lemma SubsetSize<T>(a: set<T>, b: set<T>)
    requires a <= b
    ensures |a| <= |b|
  {
    assert b == a + (b - a);
  }

  /** An injective function from `s` onto `t` makes the two sets equally large. */
  lemma {:induction false} InjectiveImageSize<A, B>(s: set<A>, t: set<B>, f: A -> B)
    requires forall a :: a in s ==> f(a) in t
    requires forall b :: b in t ==> exists a :: a in s && f(a) == b
    requires forall a, a' :: a in s && a' in s && f(a) == f(a') ==> a == a'
    ensures |t| == |s|
    decreases s
  {
    if s == {} {
      assert forall b :: b !in t;
    } else {
      var a :| a in s;
      InjectiveImageSize(s - {a}, t - {f(a)}, f);
    }
  }
}
