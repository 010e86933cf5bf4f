/** The six axial directions of `DIRECTIONS`, their arrow symbols and
    `opposite_direction`. */
module Directions {
  import opened Hex

  /** The six keys of `DIRECTIONS`, in the dictionary's order. */
  datatype Dir = Right | Left | UpLeft | DownRight | UpRight | DownLeft

  const AllDirections: seq<Dir> := [Right, Left, UpLeft, DownRight, UpRight, DownLeft]

  /** The position of a direction in `DIRECTIONS`. */
  function Index(d: Dir): (i: nat)
    ensures i < 6 && AllDirections[i] == d
  {
    match d
    case Right => 0
    case Left => 1
    case UpLeft => 2
    case DownRight => 3
    case UpRight => 4
    case DownLeft => 5
  }

  /** Position `k` of `DIRECTIONS` holds the direction whose index is `k`. */
  lemma IndexAt(k: nat)
    requires k < 6
    ensures Index(AllDirections[k]) == k
  {
  }

  /** The arrow that names a direction in move strings. */
  function Symbol(d: Dir): char {
    match d
    case Right => '→'
    case Left => '←'
    case UpLeft => '↖'
    case DownRight => '↘'
    case UpRight => '↗'
    case DownLeft => '↙'
  }

  predicate IsSymbol(ch: char) {
    ch in {'→', '←', '↖', '↘', '↗', '↙'}
  }

  function Dx(d: Dir): int {
    match d
    case Right => 1
    case Left => -1
    case UpLeft => 0
    case DownRight => 0
    case UpRight => 1
    case DownLeft => -1
  }

  function Dy(d: Dir): int {
    match d
    case Right => 0
    case Left => 0
    case UpLeft => 1
    case DownRight => -1
    case UpRight => 1
    case DownLeft => -1
  }

  /** The cell `k` steps from `c` along `d`. */
  function Step(c: Cell, d: Dir, k: int): Cell {
    Cell(c.x + Dx(d) * k, c.y + Dy(d) * k)
  }

  /** The reverse direction, as a direction. */
  function Opposite(d: Dir): Dir {
    match d
    case Right => Left
    case Left => Right
    case UpLeft => DownRight
    case DownRight => UpLeft
    case UpRight => DownLeft
    case DownLeft => UpRight
  }

  /** `opposite_direction`: a lookup in a six-entry dictionary with `.get`, so
      anything that is not an arrow gives `None`. */
  function OppositeDirection(symbol: char): Option<char> {
    if symbol == '→' then Some('←')
    else if symbol == '←' then Some('→')
    else if symbol == '↖' then Some('↘')
    else if symbol == '↘' then Some('↖')
    else if symbol == '↗' then Some('↙')
    else if symbol == '↙' then Some('↗')
    else None
  }

  /** Each arrow names one direction, and the six are distinct. */
  lemma SymbolInjective(d: Dir, e: Dir)
    ensures IsSymbol(Symbol(d))
    ensures Symbol(d) == Symbol(e) <==> d == e
  {
  }

  /** `opposite_direction` is the arrow of the reverse direction, whose vector is
      the negated vector, and applying it twice gives the arrow back. */
  lemma OppositeDirectionSpec(d: Dir)
    ensures OppositeDirection(Symbol(d)) == Some(Symbol(Opposite(d)))
    ensures Dx(Opposite(d)) == -Dx(d) && Dy(Opposite(d)) == -Dy(d)
    ensures Opposite(d) != d && Opposite(Opposite(d)) == d
  {
  }

  /** `opposite_direction` is an involution on the arrows and `None` elsewhere. */
  lemma OppositeDirectionInvolution(symbol: char)
    ensures IsSymbol(symbol) ==> OppositeDirection(symbol).Some? && OppositeDirection(OppositeDirection(symbol).value) == Some(symbol)
    ensures !IsSymbol(symbol) ==> OppositeDirection(symbol) == None
  {
  }

  /** Every direction moves the cell, and steps add up along a line. */
  lemma StepFacts(c: Cell, d: Dir, j: int, k: int)
    ensures Step(Step(c, d, j), d, k) == Step(c, d, j + k)
    ensures Step(c, d, j) == Step(c, d, k) <==> j == k
    ensures Step(Step(c, d, k), Opposite(d), k) == c
  {
    match d
    case Right =>
    case Left =>
    case UpLeft =>
    case DownRight =>
    case UpRight =>
    case DownLeft =>
  }
}
