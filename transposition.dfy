/** The transposition table of the search: Zobrist hashing of a cube-keyed board
    and a hash-indexed cache of evaluated positions with depth-preferred
    replacement. */
module Transposition {
  import opened Hex
  import GameBoard
  import Sets
  import opened Bitwise

  /** A cube cell `(q, r, s)`, the key type of the boards this table hashes. */
  datatype CubeCell = CubeCell(q: int, r: int, s: int)

  type CubeBoard = map<CubeCell, char>

  /** A key of the Zobrist table: a cube cell and a piece. */
  type Square = (CubeCell, char)

  /** A cached evaluation: the score, the search depth it came from and its
      bound flag. The score is stored and returned, never computed with. */
  datatype Entry = Entry(value: real, depth: int, flag: string)

  // ---------------------------------------------------------------------------
  // _initialize_zobrist

  /** The cube cells of the board: coordinates in -4..4 summing to zero. */
  function Positions(): set<CubeCell> {
    set q: int, r: int, s: int | -4 <= q <= 4 && -4 <= r <= 4 && -4 <= s <= 4 && q + r + s == 0 :: CubeCell(q, r, s)
  }

  /** One key per cube cell and piece, white and black only. */
  function ZobristKeys(): set<Square> {
    set p, piece | p in Positions() && piece in ['w', 'b'] :: (p, piece)
  }

  /** The axial cell a cube cell corresponds to; it maps the cube cells one to
      one onto the 61 cells of the board. */
  function Axial(p: CubeCell): Cell {
    Cell(p.q, -p.r)
  }

  lemma PositionsCount()
    ensures |Positions()| == 61
  {
    var cells := GameBoard.AllCells();
    forall c | c in cells
      ensures exists p :: p in Positions() && Axial(p) == c
    {
      GameBoard.AllCellsAreOnBoard(c);
      assert CubeCell(c.x, -c.y, c.y - c.x) in Positions();
      assert Axial(CubeCell(c.x, -c.y, c.y - c.x)) == c;
    }
    forall p | p in Positions() ensures Axial(p) in cells {
      GameBoard.AllCellsAreOnBoard(Axial(p));
    }
    Sets.InjectiveImageSize(Positions(), cells, Axial);
    GameBoard.InitializeBoardSize();
  }

  /** The keys for one piece: a copy of the positions. */
  lemma PieceKeysCount(piece: char)
    ensures |set p | p in Positions() :: (p, piece)| == 61
  {
    var keys := set p | p in Positions() :: (p, piece);
    var f := (p: CubeCell) => (p, piece);
    forall k | k in keys ensures exists p :: p in Positions() && f(p) == k {
      assert f(k.0) == k;
    }
    Sets.InjectiveImageSize(Positions(), keys, f);
    PositionsCount();
  }

  /** The Zobrist table has 122 keys: 61 cells times two pieces. */
  lemma ZobristKeysCount()
    ensures |ZobristKeys()| == 122
  {
    var white := set p | p in Positions() :: (p, 'w');
    var black := set p | p in Positions() :: (p, 'b');
    assert ZobristKeys() == white + black;
    assert white * black == {};
    PieceKeysCount('w');
    PieceKeysCount('b');
  }

  /** `_initialize_zobrist`: one constant per key, drawn from `bits`, which
      stands for the seeded random generator. */
  function InitializeZobrist(bits: Square -> Word): (zobrist: map<Square, Word>)
    ensures zobrist.Keys == ZobristKeys()
    ensures forall k :: k in zobrist ==> zobrist[k] == bits(k)
  {
    map k | k in ZobristKeys() :: bits(k)
  }

  /** The squares a cube board's items look up. */
  predicate Hashable(zobrist: map<Square, Word>, board: CubeBoard) {
    forall p :: p in board ==> (p, board[p]) in zobrist
  }

  // ---------------------------------------------------------------------------
  // The XOR fold over the board's items

  /** The XOR of the constants of the items on `cells`, folded in an unspecified
      order; `XorRemove` shows that the order does not matter. */
  ghost function XorOver(zobrist: map<Square, Word>, board: CubeBoard, cells: set<CubeCell>): nat
    requires Hashable(zobrist, board) && cells <= board.Keys
    decreases cells
  {
    if cells == {} then 0
    else
      var p :| p in cells;
      Xor(XorOver(zobrist, board, cells - {p}), zobrist[(p, board[p])])
  }

  /** Any cell can be the last one folded in. */
  lemma {:induction false} XorRemove(zobrist: map<Square, Word>, board: CubeBoard, cells: set<CubeCell>, p: CubeCell)
    requires Hashable(zobrist, board) && cells <= board.Keys && p in cells
    ensures XorOver(zobrist, board, cells) == Xor(XorOver(zobrist, board, cells - {p}), zobrist[(p, board[p])])
    decreases cells
  {
    var q :| q in cells && XorOver(zobrist, board, cells) == Xor(XorOver(zobrist, board, cells - {q}), zobrist[(q, board[q])]);
    if q != p {
      XorRemove(zobrist, board, cells - {q}, p);
      XorRemove(zobrist, board, cells - {p}, q);
      assert cells - {q} - {p} == cells - {p} - {q};
      XorSwap(XorOver(zobrist, board, cells - {q} - {p}), zobrist[(p, board[p])], zobrist[(q, board[q])]);
    }
  }

  /** The fold of 64-bit constants is a 64-bit value. */
  lemma {:induction false} XorOverWord(zobrist: map<Square, Word>, board: CubeBoard, cells: set<CubeCell>)
    requires Hashable(zobrist, board) && cells <= board.Keys
    ensures XorOver(zobrist, board, cells) < WordLimit
    decreases cells
  {
    if cells != {} {
      var p :| p in cells;
      XorRemove(zobrist, board, cells, p);
      XorOverWord(zobrist, board, cells - {p});
      XorWord(XorOver(zobrist, board, cells - {p}), zobrist[(p, board[p])]);
    }
  }

  /** `hash_game_state` as a value: the XOR over the items, then the side to
      move's constant; a missing key in either table raises `KeyError`. */
  ghost function Hash(zobrist: map<Square, Word>, playerHash: map<char, Word>, player: char, board: CubeBoard): Result<nat> {
    if !Hashable(zobrist, board) then Err(KeyError)
    else if player !in playerHash then Err(KeyError)
    else Ok(Xor(XorOver(zobrist, board, board.Keys), playerHash[player]))
  }

  /** The hash is a 64-bit value. */
  lemma HashWord(zobrist: map<Square, Word>, playerHash: map<char, Word>, player: char, board: CubeBoard)
    requires Hash(zobrist, playerHash, player, board).Ok?
    ensures Hash(zobrist, playerHash, player, board).value < WordLimit
  {
    XorOverWord(zobrist, board, board.Keys);
    XorWord(XorOver(zobrist, board, board.Keys), playerHash[player]);
  }

  /** With the constructed tables, hashing succeeds exactly on boards of cube
      cells valued `'w'` or `'b'`, for the side `'b'` or `'w'`: an empty cell
      written `'N'`, as the rules engine writes it, raises `KeyError`. */
  lemma HashDefined(zobrist: map<Square, Word>, playerHash: map<char, Word>, player: char, board: CubeBoard)
    requires zobrist.Keys == ZobristKeys() && playerHash.Keys == {'b', 'w'}
    ensures Hash(zobrist, playerHash, player, board).Ok? <==>
      (forall p :: p in board ==> p in Positions() && board[p] in {'w', 'b'}) && player in {'b', 'w'}
  {
    if forall p :: p in board ==> p in Positions() && board[p] in {'w', 'b'} {
      forall p | p in board ensures (p, board[p]) in zobrist {
        assert (p, board[p]) in ZobristKeys();
      }
    }
  }

  /** Putting a piece on a cell that was not a key XORs that square's constant
      into the hash. */
  lemma HashAddCell(zobrist: map<Square, Word>, playerHash: map<char, Word>, player: char, board: CubeBoard, p: CubeCell, piece: char)
    requires p !in board
    requires Hash(zobrist, playerHash, player, board).Ok? && (p, piece) in zobrist
    ensures Hash(zobrist, playerHash, player, board[p := piece]) ==
      Ok(Xor(Hash(zobrist, playerHash, player, board).value, zobrist[(p, piece)]))
  {
    var board' := board[p := piece];
    assert Hashable(zobrist, board');
    XorRemove(zobrist, board', board'.Keys, p);
    assert board'.Keys - {p} == board.Keys;
    XorAgree(zobrist, board, board', board.Keys);
    XorSwap(XorOver(zobrist, board, board.Keys), zobrist[(p, piece)], playerHash[player]);
  }

  /** The fold only reads the items on the cells it folds. */
  lemma {:induction false} XorAgree(zobrist: map<Square, Word>, a: CubeBoard, b: CubeBoard, cells: set<CubeCell>)
    requires Hashable(zobrist, a) && Hashable(zobrist, b) && cells <= a.Keys && cells <= b.Keys
    requires forall p :: p in cells ==> a[p] == b[p]
    ensures XorOver(zobrist, a, cells) == XorOver(zobrist, b, cells)
    decreases cells
  {
    if cells != {} {
      var p :| p in cells;
      XorRemove(zobrist, a, cells, p);
      XorRemove(zobrist, b, cells, p);
      XorAgree(zobrist, a, b, cells - {p});
    }
  }

  /** Switching the side to move XORs the two side constants into the hash. */
  lemma HashSwitchSide(zobrist: map<Square, Word>, playerHash: map<char, Word>, board: CubeBoard)
    requires Hashable(zobrist, board) && 'b' in playerHash && 'w' in playerHash
    ensures Hash(zobrist, playerHash, 'w', board).Ok? && Hash(zobrist, playerHash, 'b', board).Ok?
    ensures Hash(zobrist, playerHash, 'w', board).value ==
      Xor(Hash(zobrist, playerHash, 'b', board).value, Xor(playerHash['b'], playerHash['w']))
  {
    var x := XorOver(zobrist, board, board.Keys);
    var b, w := playerHash['b'], playerHash['w'];
    XorAssociates(x, b, Xor(b, w));
    XorAssociates(b, b, w);
    XorSelf(b);
  }

  // ---------------------------------------------------------------------------
  // store's replacement policy

  /** The table after storing `entry` under `key`: written when the key is new
      or the new depth is at least the stored one. */
  function Replace(table: map<nat, Entry>, key: nat, entry: Entry): map<nat, Entry> {
    if key !in table || entry.depth >= table[key].depth then table[key := entry] else table
  }

  /** Storing never loses a key, never lowers a recorded depth, never touches
      another key, and writes exactly when the policy allows. */
  lemma ReplaceSpec(table: map<nat, Entry>, key: nat, entry: Entry)
    ensures Replace(table, key, entry).Keys == table.Keys + {key}
    ensures forall k :: k in table ==> Replace(table, key, entry)[k].depth >= table[k].depth
    ensures forall k :: k in table && k != key ==> Replace(table, key, entry)[k] == table[k]
    ensures key !in table || entry.depth >= table[key].depth ==> Replace(table, key, entry)[key] == entry
    ensures key in table && entry.depth < table[key].depth ==> Replace(table, key, entry) == table
  {
    var t := Replace(table, key, entry);
    if key !in table || entry.depth >= table[key].depth {
      assert t == table[key := entry];
      forall k | k in table ensures t[k].depth >= table[k].depth {
        if k == key {
          assert t[k] == entry;
        }
      }
    }
  }

  // ---------------------------------------------------------------------------
  // The table object

  class TranspositionTable {
    var table: map<nat, Entry>
    var zobrist: map<Square, Word>
    var playerHash: map<char, Word>

    /** The shape the constructor gives the two constant tables. */
    predicate Valid()
      reads this
    {
      zobrist.Keys == ZobristKeys() && playerHash.Keys == {'b', 'w'}
    }

    /** `__init__`: an empty cache, the Zobrist constants and one constant per
        side; the seeded random draws are the parameters. */
    constructor (bits: Square -> Word, blackHash: Word, whiteHash: Word)
      ensures table == map[]
      ensures zobrist == InitializeZobrist(bits)
      ensures playerHash == map['b' := blackHash, 'w' := whiteHash]
      ensures Valid()
    {
      table := map[];
      zobrist := InitializeZobrist(bits);
      playerHash := map['b' := blackHash, 'w' := whiteHash];
    }

    /** `hash_game_state`: XOR the constant of every item in turn, then the side
        constant. */
    method HashGameState(player: char, board: CubeBoard) returns (r: Result<nat>)
      ensures r == Hash(zobrist, playerHash, player, board)
      ensures Valid() ==> (r.Ok? <==>
        (forall p :: p in board ==> p in Positions() && board[p] in {'w', 'b'}) && player in {'b', 'w'})
    {
      if Valid() {
        HashDefined(zobrist, playerHash, player, board);
      }
      var hashValue: nat := 0;
      var todo := board.Keys;
      while todo != {}
        invariant todo <= board.Keys
        invariant forall p :: p in board.Keys - todo ==> (p, board[p]) in zobrist
        invariant Hashable(zobrist, board) ==> hashValue == XorOver(zobrist, board, board.Keys - todo)
        decreases todo
      {
        var p :| p in todo;
        if (p, board[p]) !in zobrist {
          return Err(KeyError);
        }
        ghost var done := board.Keys - todo;
        hashValue := Xor(hashValue, zobrist[(p, board[p])]);
        todo := todo - {p};
        if Hashable(zobrist, board) {
          assert board.Keys - todo == done + {p};
          XorRemove(zobrist, board, done + {p}, p);
          assert done + {p} - {p} == done;
        }
      }
      assert board.Keys - todo == board.Keys;
      if player !in playerHash {
        return Err(KeyError);
      }
      hashValue := Xor(hashValue, playerHash[player]);
      return Ok(hashValue);
    }

    /** `lookup`: the entry under the position's hash, or `None`; the table is
        only read. */
    method Lookup(player: char, board: CubeBoard) returns (r: Result<Option<Entry>>)
      ensures r.Err? <==> Hash(zobrist, playerHash, player, board).Err?
      ensures r.Err? ==> r.error == KeyError
      ensures r.Ok? ==> var key := Hash(zobrist, playerHash, player, board).value;
        (r.value.Some? <==> key in table) && (r.value.Some? ==> r.value.value == table[key])
    {
      var key := HashGameState(player, board);
      if key.Err? {
        return Err(key.error);
      }
      if key.value in table {
        return Ok(Some(table[key.value]));
      }
      return Ok(None);
    }

    /** `store`: hash the position and apply the depth-preferred replacement;
        a position that cannot be hashed raises `KeyError` and stores nothing. */
    method Store(player: char, board: CubeBoard, value: real, depth: int, flag: string) returns (raised: Option<PyError>)
      modifies this
      ensures zobrist == old(zobrist) && playerHash == old(playerHash)
      ensures old(Valid()) ==> Valid()
      ensures Hash(zobrist, playerHash, player, board).Err? ==> raised == Some(KeyError) && table == old(table)
      ensures Hash(zobrist, playerHash, player, board).Ok? ==>
        raised == None &&
        table == Replace(old(table), Hash(zobrist, playerHash, player, board).value, Entry(value, depth, flag))
    {
      var key := HashGameState(player, board);
      if key.Err? {
        return Some(key.error);
      }
      var hashKey := key.value;
      if hashKey !in table || depth >= table[hashKey].depth {
        table := table[hashKey := Entry(value, depth, flag)];
      }
      return None;
    }

    /** `clear`: empties the cache and keeps the constants. */
    method Clear()
      modifies this
      ensures table == map[]
      ensures zobrist == old(zobrist) && playerHash == old(playerHash)
      ensures old(Valid()) ==> Valid()
    {
      table := map[];
    }
  }
}
