/** The board model of `src/board.py` and its older copy `board.py`: the empty
    61-cell board, in-place placement of marbles, the standard opening, the
    `<Row><Column><colour>` notation written by `tostring_board` and the token
    loop of `get_input_board_representation` that reads it back. */
module GameBoard {
  import opened Hex
  import opened Text
  import Sets

  // ---------------------------------------------------------------------------
  // The empty board

  /** The keys of `initialize_board`, built as its comprehension builds them. */
  function AllCells(): set<Cell> {
    set x: int, y: int | -4 <= x <= 4 && -4 <= y <= 4 && -4 <= x - y <= 4 :: Cell(x, y)
  }

  lemma AllCellsAreOnBoard(c: Cell)
    ensures c in AllCells() <==> OnBoard(c)
  {
    if OnBoard(c) {
      assert c == Cell(c.x, c.y);
    }
  }

  /** `initialize_board`: every board cell, valued `'N'`. */
  function InitializeBoard(): (board: Board)
    ensures forall c :: c in board <==> OnBoard(c)
    ensures forall c :: c in board ==> board[c] == Empty
  {
    forall c ensures c in AllCells() <==> OnBoard(c) {
      AllCellsAreOnBoard(c);
    }
    map c | c in AllCells() :: Empty
  }

  /** The cells of column `x` whose row lies in `lo..hi`. */
  function Segment(x: int, lo: int, hi: int): set<Cell> {
    set y: int | lo <= y <= hi :: Cell(x, y)
  }

  lemma {:induction false} SegmentSize(x: int, lo: int, hi: int)
    requires lo <= hi + 1
    ensures |Segment(x, lo, hi)| == hi - lo + 1
    decreases hi - lo
  {
    if lo <= hi {
      assert Segment(x, lo, hi) == Segment(x, lo, hi - 1) + {Cell(x, hi)};
      SegmentSize(x, lo, hi - 1);
    } else {
      assert Segment(x, lo, hi) == {};
    }
  }

  /** The board cells whose column is at most `k`. */
  function CellsUpTo(k: int): set<Cell> {
    set c | c in AllCells() && c.x <= k
  }

  function Abs(n: int): nat { if n < 0 then -n else n }

  /** Number of board cells in columns `-4..k`: column `x` holds `9 - |x|` cells. */
  function CellsUpToCount(k: int): int
    decreases k + 5
  {
    if k < -4 then 0 else CellsUpToCount(k - 1) + 9 - Abs(k)
  }

  lemma {:induction false} CellsUpToSize(k: int)
    requires -5 <= k <= 4
    ensures |CellsUpTo(k)| == CellsUpToCount(k)
    decreases k + 5
  {
    forall c ensures c in AllCells() <==> OnBoard(c) {
      AllCellsAreOnBoard(c);
    }
    if k == -5 {
      assert CellsUpTo(k) == {};
    } else {
      var lo := if k - 4 < -4 then -4 else k - 4;
      var hi := if k + 4 > 4 then 4 else k + 4;
      assert CellsUpTo(k) == CellsUpTo(k - 1) + Segment(k, lo, hi);
      assert CellsUpTo(k - 1) !! Segment(k, lo, hi);
      CellsUpToSize(k - 1);
      SegmentSize(k, lo, hi);
    }
  }

  /** `initialize_board` has exactly 61 keys. */
  lemma InitializeBoardSize()
    ensures |InitializeBoard()| == 61 && |AllCells()| == 61
  {
    CellsUpToSize(4);
    assert CellsUpTo(4) == AllCells();
    assert InitializeBoard().Keys == AllCells();
  }

  // ---------------------------------------------------------------------------
  // Placing marbles

  /** The cells named by a list of marble triples. */
  function CellsOf(marbles: seq<Marble>): set<Cell> {
    set m | m in marbles :: m.At()
  }

  /** The board after writing each triple's colour at its cell, first to last. */
  function Placed(board: Board, marbles: seq<Marble>): Board
    decreases |marbles|
  {
    if marbles == [] then board
    else
      var last := marbles[|marbles| - 1];
      Placed(board, marbles[..|marbles| - 1])[last.At() := last.colour]
  }

  /** Placing writes every listed cell, keeps unlisted keys, and the last triple
      naming a cell decides its colour. */
  lemma PlacedSpec(board: Board, marbles: seq<Marble>)
    ensures Placed(board, marbles).Keys == board.Keys + CellsOf(marbles)
    ensures forall c :: c in board && c !in CellsOf(marbles) ==> Placed(board, marbles)[c] == board[c]
    ensures forall i :: (0 <= i < |marbles| && (forall j :: i < j < |marbles| ==> marbles[j].At() != marbles[i].At()))
                        ==> Placed(board, marbles)[marbles[i].At()] == marbles[i].colour
  {
    PlacedKeys(board, marbles);
    PlacedLast(board, marbles);
  }

  /** Placing adds the listed cells to the keys and keeps every unlisted value. */
  lemma {:induction false} PlacedKeys(board: Board, marbles: seq<Marble>)
    ensures Placed(board, marbles).Keys == board.Keys + CellsOf(marbles)
    ensures forall c :: c in board && c !in CellsOf(marbles) ==> Placed(board, marbles)[c] == board[c]
    decreases |marbles|
  {
    if marbles != [] {
      var n := |marbles| - 1;
      PlacedKeys(board, marbles[..n]);
      assert CellsOf(marbles) == CellsOf(marbles[..n]) + {marbles[n].At()} by {
        assert marbles == marbles[..n] + [marbles[n]];
      }
    }
  }

  /** The last triple naming a cell decides its colour. */
  lemma {:induction false} PlacedLast(board: Board, marbles: seq<Marble>)
    ensures forall i :: 0 <= i < |marbles| ==> marbles[i].At() in Placed(board, marbles)
    ensures forall i :: (0 <= i < |marbles| && (forall j :: i < j < |marbles| ==> marbles[j].At() != marbles[i].At()))
                        ==> Placed(board, marbles)[marbles[i].At()] == marbles[i].colour
    decreases |marbles|
  {
    if marbles != [] {
      var n := |marbles| - 1;
      var init := marbles[..n];
      PlacedLast(board, init);
      forall i | 0 <= i < |marbles| && (forall j :: i < j < |marbles| ==> marbles[j].At() != marbles[i].At())
        ensures Placed(board, marbles)[marbles[i].At()] == marbles[i].colour
      {
        if i < n {
          assert init[i] == marbles[i];
          assert marbles[n].At() != marbles[i].At();
        }
      }
    }
  }

  /** Placing triples that agree with `target` copies `target` onto the listed cells. */
  lemma {:induction false} PlacedAgreeing(board: Board, marbles: seq<Marble>, target: Board)
    requires forall m :: m in marbles ==> m.At() in target && m.colour == target[m.At()]
    ensures Placed(board, marbles).Keys == board.Keys + CellsOf(marbles)
    ensures forall c :: c in Placed(board, marbles) ==>
      Placed(board, marbles)[c] == if c in CellsOf(marbles) then target[c] else board[c]
    decreases |marbles|
  {
    if marbles != [] {
      var n := |marbles| - 1;
      var init := marbles[..n];
      assert marbles == init + [marbles[n]];
      assert CellsOf(marbles) == CellsOf(init) + {marbles[n].At()};
      PlacedAgreeing(board, init, target);
    }
  }

  /** A mutable board dictionary, shared by reference as a Python dict is. */
  class BoardDict {
    var cells: Board

    constructor (cells: Board)
      ensures this.cells == cells
    {
      this.cells := cells;
    }
  }

  /** `place_marbles`: writes each triple into the caller's dictionary in place. */
  method PlaceMarbles(marbles: seq<Marble>, board: BoardDict)
    modifies board
    ensures board.cells == Placed(old(board.cells), marbles)
  {
    ghost var start := board.cells;
    var i := 0;
    while i < |marbles|
      invariant 0 <= i <= |marbles|
      invariant board.cells == Placed(start, marbles[..i])
    {
      var m := marbles[i];
      assert marbles[..i + 1][..i] == marbles[..i];
      board.cells := board.cells[Cell(m.x, m.y) := m.colour];
      i := i + 1;
    }
    assert marbles[..i] == marbles;
  }

  // ---------------------------------------------------------------------------
  // The standard opening

  const BlackStart: seq<Marble> := [
    Marble(-4, -4, 'b'), Marble(-3, -4, 'b'), Marble(-2, -4, 'b'), Marble(-1, -4, 'b'), Marble(0, -4, 'b'),
    Marble(-4, -3, 'b'), Marble(-3, -3, 'b'), Marble(-2, -3, 'b'), Marble(-1, -3, 'b'), Marble(0, -3, 'b'), Marble(1, -3, 'b'),
    Marble(-2, -2, 'b'), Marble(-1, -2, 'b'), Marble(0, -2, 'b')]

  const WhiteStart: seq<Marble> := [
    Marble(0, 4, 'w'), Marble(1, 4, 'w'), Marble(2, 4, 'w'), Marble(3, 4, 'w'), Marble(4, 4, 'w'),
    Marble(-1, 3, 'w'), Marble(0, 3, 'w'), Marble(1, 3, 'w'), Marble(2, 3, 'w'), Marble(3, 3, 'w'), Marble(4, 3, 'w'),
    Marble(0, 2, 'w'), Marble(1, 2, 'w'), Marble(2, 2, 'w')]

  /** The two opening lists name 14 distinct board cells each, all of one colour,
      black in rows `-4..-2` and white in rows `2..4`. */
  lemma StartLists()
    ensures |BlackStart| == 14 && |WhiteStart| == 14
    ensures forall i, j :: 0 <= i < j < 14 ==> BlackStart[i].At() != BlackStart[j].At()
    ensures forall i, j :: 0 <= i < j < 14 ==> WhiteStart[i].At() != WhiteStart[j].At()
    ensures forall i :: 0 <= i < 14 ==> BlackStart[i].colour == 'b' && OnBoard(BlackStart[i].At()) && BlackStart[i].y <= -2
    ensures forall i :: 0 <= i < 14 ==> WhiteStart[i].colour == 'w' && OnBoard(WhiteStart[i].At()) && WhiteStart[i].y >= 2
  {
    forall i {:trigger BlackStart[i]} | 0 <= i < 14
      ensures i == 0 || i == 1 || i == 2 || i == 3 || i == 4 || i == 5 || i == 6
        || i == 7 || i == 8 || i == 9 || i == 10 || i == 11 || i == 12 || i == 13 {}
    forall i {:trigger WhiteStart[i]} | 0 <= i < 14
      ensures i == 0 || i == 1 || i == 2 || i == 3 || i == 4 || i == 5 || i == 6
        || i == 7 || i == 8 || i == 9 || i == 10 || i == 11 || i == 12 || i == 13 {}
  }

  /** A list whose triples name pairwise distinct cells names as many cells as it has triples. */
  lemma {:induction false} CellsOfDistinct(marbles: seq<Marble>)
    requires forall i, j :: 0 <= i < j < |marbles| ==> marbles[i].At() != marbles[j].At()
    ensures |CellsOf(marbles)| == |marbles|
    decreases |marbles|
  {
    if marbles != [] {
      var n := |marbles| - 1;
      var init := marbles[..n];
      assert marbles == init + [marbles[n]];
      assert CellsOf(marbles) == CellsOf(init) + {marbles[n].At()};
      assert marbles[n].At() !in CellsOf(init) by {
        forall m | m in init ensures m.At() != marbles[n].At() {
          var i :| 0 <= i < n && init[i] == m;
        }
      }
      CellsOfDistinct(init);
    }
  }

  /** The cells of `board` holding `value`. */
  function ColourCells(board: Board, value: char): set<Cell> {
    set c | c in board && board[c] == value
  }

  /** `get_standard_board` as a value: black placed first, then white, on the empty board. */
  function StandardBoard(): Board {
    Placed(Placed(InitializeBoard(), BlackStart), WhiteStart)
  }

  /** The cells of the two opening lists: 14 each, on the board, disjoint. */
  lemma StartCells()
    ensures CellsOf(BlackStart) <= AllCells() && CellsOf(WhiteStart) <= AllCells()
    ensures CellsOf(BlackStart) !! CellsOf(WhiteStart)
    ensures |CellsOf(BlackStart)| == 14 && |CellsOf(WhiteStart)| == 14
    ensures forall m :: m in BlackStart ==> m.colour == 'b'
    ensures forall m :: m in WhiteStart ==> m.colour == 'w'
  {
    BlackStartCells();
    WhiteStartCells();
  }

  lemma BlackStartCells()
    ensures CellsOf(BlackStart) <= AllCells() && |CellsOf(BlackStart)| == 14
    ensures forall m :: m in BlackStart ==> m.colour == 'b' && m.y <= -2
  {
    StartLists();
    forall m | m in BlackStart ensures OnBoard(m.At()) && m.colour == 'b' && m.y <= -2 {
      var i :| 0 <= i < 14 && BlackStart[i] == m;
    }
    forall c | c in CellsOf(BlackStart) ensures c in AllCells() {
      AllCellsAreOnBoard(c);
    }
    CellsOfDistinct(BlackStart);
  }

  lemma WhiteStartCells()
    ensures CellsOf(WhiteStart) <= AllCells() && |CellsOf(WhiteStart)| == 14
    ensures forall m :: m in WhiteStart ==> m.colour == 'w' && m.y >= 2
  {
    StartLists();
    forall m | m in WhiteStart ensures OnBoard(m.At()) && m.colour == 'w' && m.y >= 2 {
      var i :| 0 <= i < 14 && WhiteStart[i] == m;
    }
    forall c | c in CellsOf(WhiteStart) ensures c in AllCells() {
      AllCellsAreOnBoard(c);
    }
    CellsOfDistinct(WhiteStart);
  }

  /** Placing a black list and then a white list with disjoint cells on an
      all-empty board: exactly the listed cells change colour. */
  lemma {:induction false} PlacedTwoLists(init: Board, black: seq<Marble>, white: seq<Marble>)
    requires forall c :: c in init ==> init[c] == Empty
    requires CellsOf(black) <= init.Keys && CellsOf(white) <= init.Keys
    requires CellsOf(black) !! CellsOf(white)
    requires forall m :: m in black ==> m.colour == 'b'
    requires forall m :: m in white ==> m.colour == 'w'
    ensures Placed(Placed(init, black), white).Keys == init.Keys
    ensures ColourCells(Placed(Placed(init, black), white), 'b') == CellsOf(black)
    ensures ColourCells(Placed(Placed(init, black), white), 'w') == CellsOf(white)
    ensures ColourCells(Placed(Placed(init, black), white), Empty) == init.Keys - CellsOf(black) - CellsOf(white)
  {
    var mid := Placed(init, black);
    PlacedAgreeing(init, black, map c | c in CellsOf(black) :: 'b');
    PlacedAgreeing(mid, white, map c | c in CellsOf(white) :: 'w');
  }

  /** The standard opening cell by cell: the black list's cells are black, the
      white list's white, and every other cell of the board empty. */
  lemma StandardBoardCells()
    ensures StandardBoard().Keys == AllCells()
    ensures ColourCells(StandardBoard(), 'b') == CellsOf(BlackStart)
    ensures ColourCells(StandardBoard(), 'w') == CellsOf(WhiteStart)
    ensures ColourCells(StandardBoard(), Empty) == AllCells() - CellsOf(BlackStart) - CellsOf(WhiteStart)
  {
    StartCells();
    var init := InitializeBoard();
    assert init.Keys == AllCells();
    PlacedTwoLists(init, BlackStart, WhiteStart);
  }

  /** The standard opening keeps the 61 keys and holds 14 black, 14 white and 33 empty cells. */
  lemma StandardBoardCounts()
    ensures StandardBoard().Keys == AllCells()
    ensures |ColourCells(StandardBoard(), 'b')| == 14
    ensures |ColourCells(StandardBoard(), 'w')| == 14
    ensures |ColourCells(StandardBoard(), Empty)| == 33
    ensures ColourCells(StandardBoard(), 'b') == CellsOf(BlackStart)
    ensures ColourCells(StandardBoard(), 'w') == CellsOf(WhiteStart)
  {
    StandardBoardCells();
    StartCells();
    InitializeBoardSize();
    var black := CellsOf(BlackStart);
    var white := CellsOf(WhiteStart);
    assert |AllCells() - black| == 61 - 14;
    assert |AllCells() - black - white| == 61 - 14 - 14 by {
      assert white <= AllCells() - black;
    }
  }


  /** `get_standard_board`: the empty board, then both opening lists placed in place. */
  method GetStandardBoard() returns (board: Board)
    ensures board == StandardBoard()
    ensures board.Keys == AllCells()
    ensures ColourCells(board, 'b') == CellsOf(BlackStart) && ColourCells(board, 'w') == CellsOf(WhiteStart)
    ensures |ColourCells(board, 'b')| == 14 && |ColourCells(board, 'w')| == 14
    ensures |ColourCells(board, Empty)| == 33
  {
    var dict := new BoardDict(InitializeBoard());
    PlaceMarbles(BlackStart, dict);
    PlaceMarbles(WhiteStart, dict);
    board := dict.cells;
    StandardBoardCounts();
  }

  // ---------------------------------------------------------------------------
  // The notation written by `tostring_board`

  /** One item of `tostring_board`'s `marble_list`: the sort key `(colour, row, column)`;
      the token string is a function of it. */
  datatype Entry = Entry(colour: char, row: char, column: int)

  /** The code points `chr` turns into a character (Dafny's `char` has no surrogates). */
  predicate IsCharCode(n: int) {
    0 <= n < 0xD800 || 0xE000 <= n < 0x11_0000
  }

  /** Every key's row `y` has the letter `chr(y + 69)`; on-board rows and every
      decoded row do. */
  predicate RowsPrintable(board: Board) {
    forall c :: c in board ==> IsCharCode(c.y + 69)
  }

  /** Every occupied cell's row `y` has the letter `chr(y + 69)`; the empty cells
      are skipped before their row is converted. */
  predicate OccupiedRowsPrintable(board: Board) {
    forall c :: c in board && board[c] != Empty ==> IsCharCode(c.y + 69)
  }

  /** Every key is one of the 61 cells; such a board can be printed. */
  predicate KeysOnBoard(board: Board): (r: bool)
    ensures r ==> RowsPrintable(board) && OccupiedRowsPrintable(board)
  {
    forall c :: c in board ==> OnBoard(c)
  }

  /** `chr(y + 69)`: rows `-4..4` become the letters `A..I`. */
  function RowLetter(y: int): (r: char)
    requires IsCharCode(y + 69)
    ensures r as int == y + 69
    ensures -4 <= y <= 4 ==> 'A' <= r <= 'I'
  {
    (y + 69) as char
  }

  function EntryOf(c: Cell, value: char): Entry
    requires IsCharCode(c.y + 69)
  {
    Entry(value, RowLetter(c.y), c.x + 5)
  }

  /** The token `f"{row}{column}{color}"`. */
  function Token(e: Entry): string {
    [e.row] + IntToString(e.column) + [e.colour]
  }

  function Tokens(es: seq<Entry>): (ts: seq<string>)
    ensures |ts| == |es| && forall i :: 0 <= i < |es| ==> ts[i] == Token(es[i])
  {
    seq(|es|, i requires 0 <= i < |es| => Token(es[i]))
  }

  /** Python's order on the tuples `(colour, row, column)`. */
  predicate Before(a: Entry, b: Entry) {
    a.colour < b.colour || (a.colour == b.colour && (a.row < b.row || (a.row == b.row && a.column < b.column)))
  }

  predicate Sorted(s: seq<Entry>) {
    forall i, j :: 0 <= i < j < |s| ==> !Before(s[j], s[i])
  }

  predicate StrictlySorted(s: seq<Entry>) {
    forall i, j :: 0 <= i < j < |s| ==> Before(s[i], s[j])
  }

  function Insert(e: Entry, s: seq<Entry>): seq<Entry> {
    if s == [] then [e] else if Before(s[0], e) then [s[0]] + Insert(e, s[1..]) else [e] + s
  }

  /** `sorted(...)`: a stable sort by the key; insertion sort computes it. */
  function Sort(s: seq<Entry>): seq<Entry> {
    if s == [] then [] else Insert(s[0], Sort(s[1..]))
  }

  lemma {:induction false} InsertSpec(e: Entry, s: seq<Entry>)
    requires Sorted(s)
    ensures multiset(Insert(e, s)) == multiset(s) + multiset{e}
    ensures Sorted(Insert(e, s))
    decreases |s|
  {
    if s != [] && Before(s[0], e) {
      var t := s[1..];
      InsertSpec(e, t);
      assert s == [s[0]] + t;
      InsertBound(s[0], e, t);
      SortedCons(s[0], Insert(e, t));
    } else if s != [] {
      SortedCons(e, s);
    }
  }

  /** Inserting an entry not before `x` among entries not before `x` keeps every
      entry not before `x`. */
  lemma InsertBound(x: Entry, e: Entry, t: seq<Entry>)
    requires !Before(e, x) && forall j :: 0 <= j < |t| ==> !Before(t[j], x)
    requires multiset(Insert(e, t)) == multiset(t) + multiset{e}
    ensures forall j :: 0 <= j < |Insert(e, t)| ==> !Before(Insert(e, t)[j], x)
  {
    var r := Insert(e, t);
    forall j | 0 <= j < |r| ensures !Before(r[j], x) {
      assert r[j] in multiset(r);
      if r[j] != e {
        assert r[j] in multiset(t);
        var k :| 0 <= k < |t| && t[k] == r[j];
      }
    }
  }

  /** A sorted sequence stays sorted behind an entry none of its entries precedes. */
  lemma SortedCons(x: Entry, t: seq<Entry>)
    requires Sorted(t) && forall j :: 0 <= j < |t| ==> !Before(t[j], x)
    ensures Sorted([x] + t)
  {
    var r := [x] + t;
    forall i, j | 0 <= i < j < |r| ensures !Before(r[j], r[i]) {
      assert r[j] == t[j - 1];
      if i > 0 {
        assert r[i] == t[i - 1];
      }
    }
  }

  /** `sorted` returns a sorted permutation of its input. */
  lemma {:induction false} SortSpec(s: seq<Entry>)
    ensures multiset(Sort(s)) == multiset(s)
    ensures Sorted(Sort(s))
    decreases |s|
  {
    if s != [] {
      SortSpec(s[1..]);
      InsertSpec(s[0], Sort(s[1..]));
      assert s == [s[0]] + s[1..];
    }
  }

  /** Two sorted arrangements of the same entries coincide (the key order is total). */
  lemma {:induction false} SortedUnique(a: seq<Entry>, b: seq<Entry>)
    requires Sorted(a) && Sorted(b) && multiset(a) == multiset(b)
    ensures a == b
    decreases |a|
  {
    if a == [] {
      assert |b| == |multiset(b)| == 0;
    } else {
      assert |b| == |multiset(b)| == |multiset(a)| == |a|;
      SortedHeads(a, b);
      TailMultiset(a);
      TailMultiset(b);
      SortedUnique(a[1..], b[1..]);
      assert a == [a[0]] + a[1..] && b == [b[0]] + b[1..];
    }
  }

  /** Two sorted arrangements of the same entries start with the same entry. */
  lemma SortedHeads(a: seq<Entry>, b: seq<Entry>)
    requires Sorted(a) && Sorted(b) && multiset(a) == multiset(b) && a != [] && b != []
    ensures a[0] == b[0]
  {
    assert a[0] in multiset(b);
    assert b[0] in multiset(a);
    var k :| 0 <= k < |b| && b[k] == a[0];
    var j :| 0 <= j < |a| && a[j] == b[0];
  }

  lemma TailMultiset(a: seq<Entry>)
    requires a != []
    ensures multiset(a[1..]) == multiset(a) - multiset{a[0]}
  {
    assert a == [a[0]] + a[1..];
  }

  /** The entries of the occupied cells among `keys`. */
  function EntriesOn(board: Board, keys: set<Cell>): set<Entry>
    requires OccupiedRowsPrintable(board)
  {
    set c | c in keys && c in board && board[c] != Empty :: EntryOf(c, board[c])
  }

  function OccupiedCells(board: Board): set<Cell> {
    set c | c in board && board[c] != Empty
  }

  lemma EntryOfInjective(c: Cell, v: char, c': Cell, v': char)
    requires IsCharCode(c.y + 69) && IsCharCode(c'.y + 69)
    requires EntryOf(c, v) == EntryOf(c', v')
    ensures c == c' && v == v'
  {
  }

  /** Some listing of a finite set of entries, each once (the dictionary's own order). */
  ghost function Enumerate(s: set<Entry>): (r: seq<Entry>)
    ensures multiset(r) == multiset(s)
    decreases s
  {
    if s == {} then []
    else
      var e :| e in s;
      assert s == (s - {e}) + {e};
      [e] + Enumerate(s - {e})
  }

  /** The token items of a board in sorted order. */
  ghost function CanonicalEntries(board: Board): seq<Entry>
    requires OccupiedRowsPrintable(board)
  {
    Sort(Enumerate(EntriesOn(board, board.Keys)))
  }

  /** The string `tostring_board` returns. */
  ghost function Notation(board: Board): string
    requires OccupiedRowsPrintable(board)
  {
    JoinWith(",", Tokens(CanonicalEntries(board)))
  }

  /** `tostring_board`: one item per occupied cell, whatever the dictionary's order,
      then sorted and comma-joined. */
  method ToStringBoard(board: Board) returns (s: string)
    requires OccupiedRowsPrintable(board)
    ensures s == Notation(board)
  {
    var marbleList: seq<Entry> := [];
    var todo := board.Keys;
    while todo != {}
      invariant todo <= board.Keys
      invariant multiset(marbleList) == multiset(EntriesOn(board, board.Keys - todo))
      decreases todo
    {
      var c :| c in todo;
      var done := board.Keys - todo;
      todo := todo - {c};
      if board[c] != Empty {
        var e := EntryOf(c, board[c]);
        assert e !in EntriesOn(board, done);
        assert EntriesOn(board, board.Keys - todo) == EntriesOn(board, done) + {e};
        marbleList := marbleList + [e];
      } else {
        assert EntriesOn(board, board.Keys - todo) == EntriesOn(board, done);
      }
    }
    var sortedMarbles := Sort(marbleList);
    var canonical := CanonicalEntries(board);
    SortSpec(marbleList);
    SortSpec(Enumerate(EntriesOn(board, board.Keys)));
    SortedUnique(sortedMarbles, canonical);
    s := JoinWith(",", Tokens(sortedMarbles));
  }

  lemma RepeatedTwice(es: seq<Entry>, i: nat, j: nat)
    requires i < j < |es| && es[i] == es[j]
    ensures multiset(es)[es[i]] >= 2
  {
    assert es == es[..i] + [es[i]] + es[i + 1..j] + [es[j]] + es[j + 1..];
  }

  /** A listing whose multiset is that of a set repeats nothing. */
  lemma ListingOfSet(es: seq<Entry>, set_: set<Entry>)
    requires multiset(es) == multiset(set_)
    ensures forall i, j :: 0 <= i < j < |es| ==> es[i] != es[j]
    ensures forall e :: e in es <==> e in set_
    ensures |es| == |set_|
  {
    forall i, j | 0 <= i < j < |es| ensures es[i] != es[j] {
      if es[i] == es[j] {
        RepeatedTwice(es, i, j);
      }
    }
    forall e ensures e in es <==> e in set_ {
      assert e in es <==> e in multiset(es);
    }
    assert |es| == |multiset(es)|;
  }

  /** Sorting a listing of a set gives its elements once each, in increasing order. */
  lemma SortedSetSpec(set_: set<Entry>)
    ensures StrictlySorted(Sort(Enumerate(set_)))
    ensures forall e :: e in Sort(Enumerate(set_)) <==> e in set_
    ensures |Sort(Enumerate(set_))| == |set_|
  {
    var es := Sort(Enumerate(set_));
    SortSpec(Enumerate(set_));
    ListingOfSet(es, set_);
  }

  /** One entry per occupied cell. */
  lemma EntriesSize(board: Board)
    requires OccupiedRowsPrintable(board)
    ensures |EntriesOn(board, board.Keys)| == |OccupiedCells(board)|
  {
    var f := (c: Cell) => if c in board && IsCharCode(c.y + 69) then EntryOf(c, board[c]) else Entry(Empty, Empty, 0);
    forall c, c' | c in OccupiedCells(board) && c' in OccupiedCells(board) && f(c) == f(c')
      ensures c == c'
    {
      EntryOfInjective(c, board[c], c', board[c']);
    }
    var image := EntriesOn(board, board.Keys);
    forall e | e in image ensures exists c :: c in OccupiedCells(board) && f(c) == e {
      var c :| c in board && board[c] != Empty && EntryOf(c, board[c]) == e;
      assert c in OccupiedCells(board) && f(c) == e;
    }
    Sets.InjectiveImageSize(OccupiedCells(board), image, f);
  }

  /** The tokens of `tostring_board` are strictly ordered by `(colour, row, column)`,
      one per occupied cell. */
  lemma CanonicalEntriesSpec(board: Board)
    requires OccupiedRowsPrintable(board)
    ensures StrictlySorted(CanonicalEntries(board))
    ensures forall e :: e in CanonicalEntries(board) <==> e in EntriesOn(board, board.Keys)
    ensures |CanonicalEntries(board)| == |OccupiedCells(board)|
  {
    SortedSetSpec(EntriesOn(board, board.Keys));
    EntriesSize(board);
  }

  /** A board without marbles is written as the empty string. */
  lemma EmptyBoardNotation(board: Board)
    requires OccupiedRowsPrintable(board)
    requires forall c :: c in board ==> board[c] == Empty
    ensures Notation(board) == ""
  {
    CanonicalEntriesSpec(board);
    assert OccupiedCells(board) == {};
  }

  // ---------------------------------------------------------------------------
  // Reading the notation back: the token loop of `get_input_board_representation`

  /** One token: `x = int(marble[1]) - 5`, `y = ord(marble[0]) - ord('E')`,
      colour `marble[2]`, with the exceptions Python raises on the way. */
  function DecodeToken(t: string): Result<Marble> {
    if |t| < 2 then Err(IndexError)
    else if !IsDigit(t[1]) then Err(ValueError)
    else if |t| < 3 then Err(IndexError)
    else Ok(Marble(DigitValue(t[1]) - 5, (t[0] as int) - ('E' as int), t[2]))
  }

  /** The tokens decoded in order; the first failing token raises. */
  function DecodeAll(tokens: seq<string>): Result<seq<Marble>>
    decreases |tokens|
  {
    if tokens == [] then Ok([])
    else
      match DecodeAll(tokens[..|tokens| - 1])
      case Err(e) => Err(e)
      case Ok(ms) =>
        match DecodeToken(tokens[|tokens| - 1])
        case Err(e) => Err(e)
        case Ok(m) => Ok(ms + [m])
  }

  /** Decoding succeeds exactly when every token decodes, and then yields one
      triple per token, in order. */
  lemma {:induction false} DecodeAllSpec(tokens: seq<string>)
    ensures DecodeAll(tokens).Ok? <==> forall t :: t in tokens ==> DecodeToken(t).Ok?
    ensures DecodeAll(tokens).Ok? ==>
              |DecodeAll(tokens).value| == |tokens| &&
              forall i :: 0 <= i < |tokens| ==> DecodeAll(tokens).value[i] == DecodeToken(tokens[i]).value
    decreases |tokens|
  {
    if tokens != [] {
      var n := |tokens| - 1;
      DecodeAllSpec(tokens[..n]);
      assert tokens == tokens[..n] + [tokens[n]];
      if !DecodeAll(tokens[..n]).Ok? {
        var t :| t in tokens[..n] && !DecodeToken(t).Ok?;
      }
    }
  }

  /** The decode loop as a value: the configuration line split at commas, each
      token written onto a fresh empty board. */
  function DecodeConfiguration(line: string): Result<Board> {
    match DecodeAll(Split(line, ','))
    case Err(e) => Err(e)
    case Ok(ms) => Ok(Placed(InitializeBoard(), ms))
  }

  /** The token loop of `get_input_board_representation` (both generations),
      given the configuration line the file supplies. */
  method GetInputBoardRepresentation(line: string) returns (r: Result<Board>)
    ensures r == DecodeConfiguration(line)
  {
    var configuration := Split(line, ',');
    var currentBoard := InitializeBoard();
    ghost var decoded: seq<Marble> := [];
    var i := 0;
    while i < |configuration|
      invariant 0 <= i <= |configuration|
      invariant DecodeAll(configuration[..i]) == Ok(decoded)
      invariant currentBoard == Placed(InitializeBoard(), decoded)
    {
      var marble := configuration[i];
      DecodeNext(configuration, i, decoded);
      if |marble| < 2 {
        return Err(IndexError);
      }
      if !IsDigit(marble[1]) {
        return Err(ValueError);
      }
      var x := DigitValue(marble[1]) - 5;
      var y := (marble[0] as int) - ('E' as int);
      if |marble| < 3 {
        return Err(IndexError);
      }
      PlacedSnoc(InitializeBoard(), decoded, Marble(x, y, marble[2]));
      currentBoard := currentBoard[Cell(x, y) := marble[2]];
      decoded := decoded + [Marble(x, y, marble[2])];
      i := i + 1;
    }
    assert configuration[..i] == configuration;
    r := Ok(currentBoard);
  }

  /** One more token: its failure is the failure of the whole line, and its
      triple otherwise extends the decoded prefix. */
  lemma DecodeNext(tokens: seq<string>, i: nat, decoded: seq<Marble>)
    requires i < |tokens| && DecodeAll(tokens[..i]) == Ok(decoded)
    ensures DecodeToken(tokens[i]).Err? ==> DecodeAll(tokens) == Err(DecodeToken(tokens[i]).error)
    ensures DecodeToken(tokens[i]).Ok? ==> DecodeAll(tokens[..i + 1]) == Ok(decoded + [DecodeToken(tokens[i]).value])
  {
    assert tokens[..i + 1][..i] == tokens[..i];
    if DecodeToken(tokens[i]).Err? {
      DecodeAllErr(tokens, i + 1);
    }
  }

  /** Placing one more triple writes its cell last. */
  lemma PlacedSnoc(board: Board, marbles: seq<Marble>, m: Marble)
    ensures Placed(board, marbles + [m]) == Placed(board, marbles)[m.At() := m.colour]
  {
    assert (marbles + [m])[..|marbles|] == marbles;
  }

  /** Once a prefix fails to decode, so does every longer prefix, with the same error. */
  lemma {:induction false} DecodeAllErr(tokens: seq<string>, k: nat)
    requires 0 < k <= |tokens|
    requires DecodeAll(tokens[..k - 1]).Ok? && DecodeToken(tokens[k - 1]).Err?
    ensures DecodeAll(tokens) == Err(DecodeToken(tokens[k - 1]).error)
    decreases |tokens| - k
  {
    if k == |tokens| {
      assert tokens[..k] == tokens;
    } else {
      assert tokens[..k][..k - 1] == tokens[..k - 1];
      DecodeAllStaysErr(tokens, k);
    }
  }

  lemma {:induction false} DecodeAllStaysErr(tokens: seq<string>, k: nat)
    requires 0 < k <= |tokens|
    requires DecodeAll(tokens[..k]).Err?
    ensures DecodeAll(tokens) == DecodeAll(tokens[..k])
    decreases |tokens| - k
  {
    if k < |tokens| {
      assert tokens[..k + 1][..k] == tokens[..k];
      DecodeAllStaysErr(tokens, k + 1);
    } else {
      assert tokens[..k] == tokens;
    }
  }

  /** The triple an entry's token stands for. */
  function EntryMarble(e: Entry): Marble {
    Marble(e.column - 5, (e.row as int) - ('E' as int), e.colour)
  }

  /** The token of an on-board cell decodes back to that cell and colour. */
  lemma TokenRoundTrip(c: Cell, value: char)
    requires OnBoard(c)
    ensures DecodeToken(Token(EntryOf(c, value))) == Ok(Marble(c.x, c.y, value))
    ensures EntryMarble(EntryOf(c, value)) == Marble(c.x, c.y, value)
    ensures value != ',' ==> ',' !in Token(EntryOf(c, value))
  {
    var t := Token(EntryOf(c, value));
    assert NatToString(c.x + 5) == [DigitChar(c.x + 5)];
    assert t == [RowLetter(c.y), DigitChar(c.x + 5), value];
  }

  /** Each sorted entry is the entry of an occupied cell, the one its triple names. */
  lemma CanonicalEntryCells(board: Board)
    requires KeysOnBoard(board)
    ensures forall i :: 0 <= i < |CanonicalEntries(board)| ==>
              var e := CanonicalEntries(board)[i];
              var c := EntryMarble(e).At();
              c in OccupiedCells(board) && e == EntryOf(c, board[c])
  {
    var es := CanonicalEntries(board);
    CanonicalEntriesSpec(board);
    forall i | 0 <= i < |es|
      ensures EntryMarble(es[i]).At() in OccupiedCells(board)
      ensures es[i] == EntryOf(EntryMarble(es[i]).At(), board[EntryMarble(es[i]).At()])
    {
      assert es[i] in EntriesOn(board, board.Keys);
      var c :| c in board && board[c] != Empty && EntryOf(c, board[c]) == es[i];
      TokenRoundTrip(c, board[c]);
    }
  }

  /** The marbles recovered from the sorted tokens, in their order. */
  ghost function CanonicalMarbles(board: Board): seq<Marble>
    requires KeysOnBoard(board)
  {
    var es := CanonicalEntries(board);
    seq(|es|, i requires 0 <= i < |es| => EntryMarble(es[i]))
  }

  /** Decoding the notation reads each sorted token back. */
  lemma DecodeNotation(board: Board)
    requires KeysOnBoard(board)
    requires WellValued(board)
    requires OccupiedCells(board) != {}
    ensures DecodeConfiguration(Notation(board)) == Ok(Placed(InitializeBoard(), CanonicalMarbles(board)))
  {
    var es := CanonicalEntries(board);
    CanonicalEntriesSpec(board);
    CanonicalEntryCells(board);
    var ts := Tokens(es);
    forall i | 0 <= i < |ts|
      ensures ',' !in ts[i] && DecodeToken(ts[i]) == Ok(EntryMarble(es[i]))
    {
      var c := EntryMarble(es[i]).At();
      TokenRoundTrip(c, board[c]);
    }
    SplitJoin(',', ts);
    DecodeTokens(ts, CanonicalMarbles(board));
  }

  /** Tokens that each decode to the matching triple decode together to the triples. */
  lemma DecodeTokens(ts: seq<string>, ms: seq<Marble>)
    requires |ts| == |ms|
    requires forall i :: 0 <= i < |ts| ==> DecodeToken(ts[i]) == Ok(ms[i])
    ensures DecodeAll(ts) == Ok(ms)
  {
    DecodeAllSpec(ts);
    assert DecodeAll(ts).Ok? by {
      forall t | t in ts ensures DecodeToken(t).Ok? {
        var i :| 0 <= i < |ts| && ts[i] == t;
      }
    }
    assert DecodeAll(ts).value == ms;
  }

  /** The recovered marbles agree with the board and cover every occupied cell. */
  lemma CanonicalMarblesCover(board: Board)
    requires KeysOnBoard(board)
    ensures forall m :: m in CanonicalMarbles(board) ==> m.At() in board && m.colour == board[m.At()]
    ensures OccupiedCells(board) <= CellsOf(CanonicalMarbles(board))
  {
    var es := CanonicalEntries(board);
    var ms := CanonicalMarbles(board);
    CanonicalEntriesSpec(board);
    CanonicalEntryCells(board);
    forall m | m in ms ensures m.At() in board && m.colour == board[m.At()] {
      var i :| 0 <= i < |ms| && ms[i] == m;
      assert ms[i] == EntryMarble(es[i]);
    }
    forall c | c in OccupiedCells(board) ensures c in CellsOf(ms) {
      assert EntryOf(c, board[c]) in es;
      var i :| 0 <= i < |es| && es[i] == EntryOf(c, board[c]);
      TokenRoundTrip(c, board[c]);
      assert ms[i] in ms;
    }
  }

  /** Reading back what `tostring_board` wrote recreates the board, provided it holds
      at least one marble (the empty string splits into one empty token, which fails). */
  lemma NotationRoundTrip(board: Board)
    requires KeysOnBoard(board) && forall c :: OnBoard(c) ==> c in board
    requires WellValued(board)
    requires OccupiedCells(board) != {}
    ensures DecodeConfiguration(Notation(board)) == Ok(board)
  {
    DecodeNotation(board);
    CanonicalMarblesCover(board);
    var ms := CanonicalMarbles(board);
    PlacedAgreeing(InitializeBoard(), ms, board);
    var placed := Placed(InitializeBoard(), ms);
    assert placed.Keys == board.Keys;
    forall c | c in board ensures placed[c] == board[c] {
      if c !in CellsOf(ms) {
        assert c !in OccupiedCells(board);
      }
    }
    assert placed == board;
  }

  /** Decoding the empty notation (a board without marbles) fails on the empty token. */
  lemma EmptyNotationFails()
    ensures DecodeConfiguration("") == Err(IndexError)
  {
    assert Split("", ',') == [""];
  }

  /** A line that is one 2-character token fails: the column is read before the
      colour, so a non-digit second character raises `ValueError` and a digit one
      `IndexError`. */
  lemma ShortTokenErrors(t: string)
    requires |t| == 2 && ',' !in t
    ensures DecodeConfiguration(t) == if IsDigit(t[1]) then Err(IndexError) else Err(ValueError)
  {
    SplitJoin(',', [t]);
    assert JoinWith([','], [t]) == t;
    assert [t][..0] == [];
    assert Split(t, ',') == [t];
    assert DecodeAll([t]) == if IsDigit(t[1]) then Err(IndexError) else Err(ValueError);
  }

  /** A successful decode names one cell per token, in order. */
  lemma DecodedCells(line: string)
    requires DecodeConfiguration(line).Ok?
    ensures forall t :: t in Split(line, ',') ==> DecodeToken(t).Ok?
    ensures var ms := DecodeAll(Split(line, ',')).value;
      DecodeConfiguration(line).value == Placed(InitializeBoard(), ms)
      && forall c :: c in CellsOf(ms) <==> exists t :: t in Split(line, ',') && DecodeToken(t).value.At() == c
  {
    var ts := Split(line, ',');
    DecodeAllSpec(ts);
    DecodedTokenCells(ts);
  }

  /** The cells of the decoded triples are the cells the tokens name. */
  lemma DecodedTokenCells(ts: seq<string>)
    requires DecodeAll(ts).Ok?
    ensures forall t :: t in ts ==> DecodeToken(t).Ok?
    ensures forall c :: c in CellsOf(DecodeAll(ts).value) <==> exists t :: t in ts && DecodeToken(t).value.At() == c
  {
    DecodeAllSpec(ts);
    var ms := DecodeAll(ts).value;
    forall c ensures c in CellsOf(ms) <==> exists t :: t in ts && DecodeToken(t).value.At() == c {
      if c in CellsOf(ms) {
        var m :| m in ms && m.At() == c;
        var i :| 0 <= i < |ms| && ms[i] == m;
        assert ts[i] in ts;
      }
      if exists t :: t in ts && DecodeToken(t).value.At() == c {
        var t :| t in ts && DecodeToken(t).value.At() == c;
        var i :| 0 <= i < |ts| && ts[i] == t;
        assert ms[i] in ms;
      }
    }
  }

  /** The decoded board keeps exactly the 61 cells iff every token names an on-board cell. */
  lemma DecodedKeys(line: string)
    requires DecodeConfiguration(line).Ok?
    ensures forall t :: t in Split(line, ',') ==> DecodeToken(t).Ok?
    ensures (forall c :: c in DecodeConfiguration(line).value <==> OnBoard(c))
            <==> forall t :: t in Split(line, ',') ==> OnBoard(DecodeToken(t).value.At())
  {
    DecodedCells(line);
    var ms := DecodeAll(Split(line, ',')).value;
    PlacedSpec(InitializeBoard(), ms);
  }

  /** Every decoded board can be printed: its keys are the empty board's cells and
      cells whose row is `ord(r) - ord('E')` for the first character `r` of a token. */
  lemma DecodedPrintable(line: string)
    requires DecodeConfiguration(line).Ok?
    ensures RowsPrintable(DecodeConfiguration(line).value)
    ensures OccupiedRowsPrintable(DecodeConfiguration(line).value)
  {
    DecodedCells(line);
    var ts := Split(line, ',');
    var ms := DecodeAll(ts).value;
    PlacedKeys(InitializeBoard(), ms);
    forall c | c in DecodeConfiguration(line).value ensures IsCharCode(c.y + 69) {
      if c in CellsOf(ms) {
        var t :| t in ts && DecodeToken(t).value.At() == c;
        assert c.y + 69 == t[0] as int;
      }
    }
  }

  /** In a decoded board, cells no token names stay empty and the last token naming
      a cell decides its colour. */
  lemma DecodedValues(line: string)
    requires DecodeConfiguration(line).Ok?
    ensures forall t :: t in Split(line, ',') ==> DecodeToken(t).Ok?
    ensures var b := DecodeConfiguration(line).value;
      var ts := Split(line, ',');
      forall c :: c in b && (forall t :: t in ts ==> DecodeToken(t).value.At() != c) ==> b[c] == Empty
    ensures var b := DecodeConfiguration(line).value;
      var ts := Split(line, ',');
      forall i :: 0 <= i < |ts| && (forall j :: i < j < |ts| ==> DecodeToken(ts[j]).value.At() != DecodeToken(ts[i]).value.At())
                  ==> DecodeToken(ts[i]).value.At() in b && b[DecodeToken(ts[i]).value.At()] == DecodeToken(ts[i]).value.colour
  {
    DecodedCells(line);
    var ts := Split(line, ',');
    DecodeAllSpec(ts);
    var ms := DecodeAll(ts).value;
    PlacedSpec(InitializeBoard(), ms);
  }
}
