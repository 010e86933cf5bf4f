# Hexagonal marble game rules engine, modelled in Dafny

This project models the rules engine of a two-player hexagonal marble game of
the Abalone family. It has two generations: the newer `src/` files and the older
root-level copies. The game is played on the 61 cells `(x, y)` with
`-4 <= x, y <= 4` and `-4 <= x - y <= 4`. A board is a dictionary from cells to
`'b'` (black), `'w'` (white) or `'N'` (empty). The model covers:

- **The board** (`board.dfy`, module `GameBoard`):
  - the empty board and the standard opening of 14 black and 14 white marbles;
  - `place_marbles`, which writes into the caller's dictionary;
  - `tostring_board`, which writes the sorted `<Row><Column><colour>` notation;
  - the token loop of `get_input_board_representation`, which reads the notation back.
- **The test driver's board helpers** (`board_test.dfy`, module `BoardTest`): `validate_pos` and the unsorted token listing of `print_board`.
- **Directions** (`directions.dfy`, module `Directions`): the six axial directions of `DIRECTIONS`, their arrow symbols and `opposite_direction`.
- **Move generation** (`move_rules.dfy`, `move_text.dfy`, `move_gen.dfy`):
  - the legality rules: groups of one to three marbles, the push ("sumito") rule and side-steps;
  - the move strings in both output formats, and how the regular expression of `apply_move` reads them back;
  - the three generators as loops that grow the move list. Each is proved to emit exactly the legal moves of its kind, each once, each rendered as the source renders it.
- **Move application** (`apply_move.dfy`, module `ApplyMove`): `apply_move` as written, and as evidently intended (see "## Findings"), as loops that rewrite a shared board dictionary in place.
- **Integer heuristics** (`heuristic.dfy`, module `Heuristic`): `marbles_in_danger`, `opponent_territory` and the integer count inside `break_opponent_formation`.
- **The transposition table** (`transposition.dfy`, `bitwise.dfy`): a class with the cache, the Zobrist constants and the side-to-move constants. Python's `^` on non-negative integers is modelled digit by digit.

Shared vocabulary lives in `hex.dfy`: cells, boards, marble triples and Python's exceptions as an error datatype. The few Python string built-ins the code relies on are in `text.dfy`: `str`, `int`, `split` and `join`.

Dictionaries are modelled as Dafny maps. A loop over `board.items()` takes the keys in an unspecified order, so every property is stated independently of iteration order. The generators return the move strings together with a ghost list of structured moves, one per string.

Where the game's rules, or the source's own docstrings and comments, promise something the code does not do, the model follows the code:
- A marble is "in danger" only with two or more opponent neighbours. The docstring speaks of marbles at risk of being pushed off the board, but there is no separate rim rule (`src/heuristic.py:47-71`).
- In the heuristics: the disruption count in `break_opponent_formation` is always 0, because a cell holding the player is never among the opponent's own cells (`src/heuristic.py:89-92`, `Heuristic.FormationCountZero`). The territory is the opponent's own cells with `x + y > 1`, not positions where the opponent has three or more marbles as the comment says (`src/heuristic.py:108-110`, `Heuristic.OpponentTerritory`).
- The push rule never looks at the cell behind the opposing run. A friendly marble there does not block the push (`src/moves.py:64-73`, `MoveRules.PushIgnoresCellBehindRun`).
- The board dictionary keeps its `'N'` cells as keys. A token naming a cell off the board adds a key instead of failing (`GameBoard.DecodedKeys`).
- Pushed-off marbles are not counted. There is no score update (`src/moves.py:171-172`).

## Model

| member | source | states |
|---|---|---|
| GameBoard.AllCellsAreOnBoard | src/board.py:20 | a cell is produced by the comprehension of `initialize_board` iff it satisfies the three board bounds |
| GameBoard.InitializeBoard | src/board.py:14-20 | the empty board's keys are exactly the on-board cells, and every value is `'N'` |
| GameBoard.SegmentSize | src/board.py:20 | the rows `lo..hi` of one column hold `hi - lo + 1` cells |
| GameBoard.CellsUpToSize | src/board.py:20 | the board cells in columns `-4..k` number the sum over those columns of 9 minus the column's distance from 0 |
| GameBoard.InitializeBoardSize | board.py:7-13 | `initialize_board` (both generations) has exactly 61 keys |
| GameBoard.PlacedSpec | src/board.py:55-56 | placing writes every listed cell, keeps every unlisted key, and the last triple naming a cell decides its colour |
| GameBoard.PlacedKeys | src/board.py:55-56 | placing marbles gives exactly the old keys plus the listed cells, and keeps the colour of every unlisted key |
| GameBoard.PlacedLast | src/board.py:55-56 | every listed cell is a key afterwards and takes the colour of the last triple naming it |
| GameBoard.PlacedAgreeing | src/board.py:55-56 | triples that agree with a target board copy the target's values onto exactly the listed cells |
| GameBoard.BoardDict.constructor | src/board.py:47-56 | a shared dictionary object holds the given board |
| GameBoard.PlaceMarbles | src/board.py:47-56 | the loop writes into the caller's dictionary in place, leaving exactly the board the placement specification gives |
| GameBoard.StartLists | src/board.py:28-39 | each opening list names 14 distinct on-board cells of one colour, black in rows -4..-2 and white in rows 2..4 |
| GameBoard.StartCells | src/board.py:28-39 | the two opening lists name 14 on-board cells each, share none, and are one colour each |
| GameBoard.PlacedTwoLists | src/board.py:41-42 | placing two disjoint one-colour lists on an empty board gives exactly those cells those colours, and leaves the rest empty |
| GameBoard.StandardBoardCells | src/board.py:23-44 | the standard opening holds `'b'` on exactly the black list's cells, `'w'` on exactly the white list's, and `'N'` on every other cell of the 61 |
| GameBoard.StandardBoardCounts | src/board.py:23-44 | the standard opening keeps the 61 keys, its `'b'` cells are exactly the 14 cells of the black list and its `'w'` cells exactly the 14 of the white list, and 33 cells are `'N'` |
| GameBoard.GetStandardBoard | src/board.py:23-44 | `get_standard_board` returns the standard opening: the 61 keys, black on exactly the 14 cells of the black list, white on exactly the 14 of the white list, and the other 33 cells empty |
| GameBoard.InsertSpec | src/board.py:132 | inserting into a sorted list keeps it sorted and adds exactly the element to its multiset |
| GameBoard.SortSpec | src/board.py:132 | `sorted` returns a permutation of its input, ordered by `(colour, row, column)` |
| GameBoard.SortedUnique | src/board.py:132 | two sorted lists with the same multiset are equal, so the output does not depend on dictionary order |
| GameBoard.EntryOfInjective | src/board.py:126-130 | two on-board cells with the same `(colour, row, column)` item are the same cell with the same value |
| GameBoard.ToStringBoard | src/board.py:115-137 | for any board, off-board keys included, whose occupied rows have a letter `chr(y + 69)`: the loop's output, whatever the dictionary order, is the canonical notation: the sorted tokens of the occupied cells, comma-joined |
| GameBoard.ListingOfSet | src/board.py:123-130 | a listing whose multiset is a set's repeats nothing and has exactly the set's elements |
| GameBoard.SortedSetSpec | src/board.py:132 | sorting a listing of a set gives each element once, strictly increasing |
| GameBoard.EntriesSize | src/board.py:123-130 | there is one item per occupied cell, and `'N'` cells are skipped |
| GameBoard.CanonicalEntriesSpec | src/board.py:123-134 | the notation lists the occupied cells' items strictly sorted by `(colour, row, column)`, one per occupied cell |
| GameBoard.EmptyBoardNotation | src/board.py:132-137 | a board without marbles is written as `""` |
| GameBoard.GetInputBoardRepresentation | src/board.py:70-86 | the decode loop returns the board the decode specification gives; at the first failing token it raises `IndexError` on a token shorter than 2 characters, `ValueError` on a non-digit second character, and `IndexError` on a 2-character token whose second character is a digit |
| GameBoard.DecodeAllErr | src/board.py:81-84 | once a token fails to decode, every longer prefix fails with the same error |
| GameBoard.DecodeAllStaysErr | src/board.py:81-84 | a failure on a prefix is the failure of the whole configuration |
| GameBoard.TokenRoundTrip | src/board.py:126-128 | decoding the token of an on-board cell (`x = int(c) - 5`, `y = ord(r) - ord('E')`) recovers that cell and colour, and the token holds no comma |
| GameBoard.CanonicalEntryCells | src/board.py:123-130 | each sorted item is the item of the occupied cell its triple names |
| GameBoard.DecodeNotation | src/board.py:76-84 | decoding the notation of a non-empty board places each sorted token's triple onto a fresh board |
| GameBoard.DecodeTokens | src/board.py:81-84 | tokens that each decode to a triple decode together to those triples, in order |
| GameBoard.CanonicalMarblesCover | src/board.py:123-130 | the triples read back agree with the board and cover every occupied cell |
| GameBoard.NotationRoundTrip | src/board.py:82-84 | reading `tostring_board`'s output onto a fresh board reproduces any 61-key board valued in `b`, `w`, `N` that holds at least one marble |
| GameBoard.EmptyNotationFails | src/board.py:76-84 | the notation of an empty board, `""`, splits into one empty token, which raises `IndexError` |
| GameBoard.ShortTokenErrors | src/board.py:81-84 | the column is read before the colour: a line that is one 2-character token raises `ValueError` when its second character is not a digit, and `IndexError` when it is |
| GameBoard.DecodedCells | board.py:32-35 | a successful decode names one cell per token, in order, with the token's colour |
| GameBoard.DecodedTokenCells | board.py:32-35 | the cells written are exactly the cells the tokens name |
| GameBoard.DecodedKeys | board.py:35 | after a successful decode, the key set is exactly the 61 cells iff every token names an on-board cell |
| GameBoard.DecodedValues | board.py:32-35 | cells no token names stay `'N'`, and the last token naming a cell decides its value |
| GameBoard.DecodedPrintable | src/board.py:76-86 | every row of a decoded board, including an off-board one, is `ord(r) - ord('E')` for a character `r` or an on-board row, so `tostring_board` and `print_board` accept every decoded board |
| BoardTest.ValidatePosIsBoardKey | src/board_test.py:29-30 | `validate_pos(x, y)` holds iff `(x, y)` is a key of `initialize_board` |
| BoardTest.ValidatePosExamples | src/board_test.py:57-59 | `(4, 5)` and `(4, 6)` are rejected, and `(-4, -4)` is accepted |
| BoardTest.ValidatePosHalfTurn | src/board_test.py:30 | validity is invariant under `(x, y) -> (-x, -y)` |
| BoardTest.PrintBoard | src/board_test.py:37-45 | for any board, off-board keys included, whose rows have a letter `chr(y + 69)`: the printed text joins one token per key of the board, in some order that lists each key once, without sorting |
| BoardTest.PrintedTokenCount | src/board_test.py:37-45 | the printed text splits back into exactly one token per key |
| BoardTest.DistinctListingSize | src/board_test.py:39 | a repetition-free listing of the keys has as many items as there are keys |
| Directions.Index | src/moves.py:3-10 | each direction has one position among the six keys of `DIRECTIONS` |
| Directions.IndexAt | src/moves.py:3-10 | the position of the `k`-th key is `k` |
| Directions.SymbolInjective | src/moves.py:3-10 | the six arrows are distinct, and each names one direction |
| Directions.OppositeDirectionSpec | src/moves.py:179-188 | `opposite_direction` maps each arrow to the arrow of the negated vector, which differs from it and reverses back |
| Directions.OppositeDirectionInvolution | moves.py:124-133 | `opposite_direction` is an involution on the six arrows and returns `None` for any other character |
| Directions.StepFacts | src/moves.py:3-10 | steps along a direction add up, never revisit a cell, and are undone by the opposite direction |
| MoveRules.Group | src/moves.py:39-47 | the group collected from a cell has one to three cells, consecutive along the direction |
| MoveRules.OpponentRun | src/moves.py:64-71 | the opposing run has one to three cells, consecutive along the direction |
| MoveRules.GroupShape | src/moves.py:39-47 | every cell of the group holds the player's colour, and the scan stopped at the first cell that did not, or after three |
| MoveRules.InlineShape | src/moves.py:49-54 | an inline move or push has a group of 2 or 3 consecutive `player` cells, and the cell beyond the lead marble is a board key |
| MoveRules.PushArity | src/moves.py:73 | a push is legal exactly for 2 against 1, 3 against 1 and 3 against 2; never 2 against 2 or 3 against 3 |
| MoveRules.PushIgnoresCellBehindRun | moves.py:64-77 | two marbles push one opposing marble even when the player's own marble stands right behind it |
| MoveRules.SideStepDirections | src/moves.py:103-105 | a side-step never moves along the alignment or its opposite, and its vector is neither the alignment's nor its negation |
| MoveText.RunOnBoard | src/moves.py:64-71 | the opposing run of a legal push lies on board keys |
| MoveText.FirstDirectionSpec | src/moves.py:134 | the direction found is the first key of `DIRECTIONS` whose arrow occurs, and there is none iff no arrow occurs |
| MoveText.FirstDirectionOfPlain | src/moves.py:134-136 | no direction is found exactly when the string holds no arrow |
| MoveText.FindArrow | src/moves.py:134-141 | between two arrow-free texts, the arrow is the one found, and the text before it is the first text |
| MoveText.MatchIntText | src/moves.py:145-147 | `int()` of the digits that `str()` wrote for any integer gives that integer back |
| MoveText.MatchMarbleText | src/moves.py:145-147 | the marble pattern matches a rendered triple exactly and recovers its coordinates and colour |
| MoveText.MarbleTextPlain | src/moves.py:25 | a rendered triple holds no arrow |
| MoveText.GroupTextPlain | src/moves.py:60 | a rendered group holds no arrow |
| MoveText.FindGroupText | src/moves.py:145-147 | `re.findall` recovers every triple of a rendered group, in order |
| MoveText.ArrowSplit | src/moves.py:134-141 | a string of an arrow-free text, an arrow and an arrow-free tail splits into exactly that text and tail |
| MoveText.LegacyPushText | moves.py:75-77 | the older push string names only the first opposing cell, tags it with the mover's colour, and ends with a space |
| MoveText.CurrentPushText | src/moves.py:75-77 | the newer push string lists, after `p`, every cell of the opposing run with the value it holds |
| MoveText.FindRunText | src/moves.py:77 | `re.findall` recovers every triple of a rendered run, each with its own colour |
| MoveText.FindPair | moves.py:116 | one `(from)arrow(to)` pair is scanned as its origin triple, then its destination triple |
| MoveText.PairMarblesSpec | moves.py:115-118 | the pair triples alternate each group marble and its destination |
| MoveText.LegacySideStepPairs | moves.py:115-118 | the older side-step string is one pair per group marble, joined by `' + '`, and scanning it recovers origin and destination of each |
| MoveGen.CollectGroup | src/moves.py:42-47 | the `range(1, 3)` loop collects exactly the group the legality rules define |
| MoveGen.CollectRun | src/moves.py:65-71 | the loop collects exactly the opposing run, at most three cells |
| MoveGen.CollectSideMoved | src/moves.py:107-113 | every group marble gets a destination iff every destination is a key valued `'N'`, and then the destinations are the shifted group |
| MoveGen.SingleMoveToward | src/moves.py:21-26 | one direction from one marble emits the single move iff it is legal |
| MoveGen.SingleMovesFrom | src/moves.py:21-26 | the six directions from one marble emit exactly its legal single moves, at most 6, each once |
| MoveGen.GetSingleMoves | src/moves.py:12-27 | `get_single_moves` emits exactly the legal single moves (from a `player` cell to a neighbouring key valued `'N'`), each once and rendered as the source renders it, at most 6 per player marble |
| MoveGen.InlineMoveAlong | src/moves.py:39-78 | one direction from one marble emits the inline move iff the cell beyond is `'N'`, and the push iff the push rule holds |
| MoveGen.PushAlong | src/moves.py:64-78 | when the cell beyond the group is opposing, the push is emitted iff it is legal, rendered with the whole run |
| MoveGen.InlineBranch | src/moves.py:48-63 | from a held marble, the inline move is legal iff the group has two or more marbles and the cell beyond is `'N'`; a legal push needs that group and an opposing cell beyond |
| MoveGen.PushBranch | src/moves.py:64-73 | when the cell beyond the group is opposing, no inline move is legal, and the push is legal iff the group outnumbers the opposing run and that run has at most two marbles |
| MoveGen.InlineEmitted | src/moves.py:59-63 | the one string emitted for a legal inline move renders that move |
| MoveGen.PushEmitted | src/moves.py:69-78 | the one string emitted for a legal push, with its tail in either format, renders that push |
| MoveGen.InlineMovesFrom | src/moves.py:38-78 | the six directions from one marble emit exactly its legal inline moves and pushes, each once |
| MoveGen.GetInlineMoves | src/moves.py:30-80 | `get_inline_moves` emits exactly the legal inline moves and pushes, each once, rendered in the newer or the older format (moves.py:30-79) |
| MoveGen.SideStepToward | src/moves.py:103-121 | one side direction emits the side-step iff it is neither the alignment nor its opposite and every destination is free |
| MoveGen.SideStepsAlong | src/moves.py:103-121 | the side directions for one alignment emit exactly its legal side-steps, each once |
| MoveGen.SideStepMovesFrom | src/moves.py:91-121 | the six alignments from one marble emit exactly its legal side-steps, each once |
| MoveGen.GetSideStepMoves | src/moves.py:83-123 | `get_side_step_moves` emits exactly the legal side-steps, each once, rendered in the newer or the older format (moves.py:82-121) |
| ApplyMove.ShiftColour | src/moves.py:170 | the colour written on pushed marbles is always `'b'` or `'w'`; with `player` read as the y coordinate it is always `'w'`, and with `player` read as a colour `'b'` or `'w'` it is the other colour |
| ApplyMove.Chain | src/moves.py:157-160 | the scanned run is consecutive along the direction from its start, every cell of it satisfies the scan condition, and the cell after it does not |
| ApplyMove.ChainUnique | src/moves.py:157-160 | the scanned run is the only run of consecutive scanned cells that stops at the first cell failing the scan condition |
| ApplyMove.ScanRun | src/moves.py:153-160 | the `while` loop collects exactly that run |
| ApplyMove.ShiftInPlace | src/moves.py:164-172 | the shift loop rewrites the dictionary exactly as the shift specification says |
| ApplyMove.MoveInPlace | src/moves.py:175-177 | the move loop rewrites the dictionary as the move specification says, raising `KeyError` where `pop` would |
| ApplyMove.ApplyParsedInPlace | src/moves.py:150-177 | the body after parsing does the scan, the conditional shift, then the move loop |
| ApplyMove.ApplyMoveInPlace | src/moves.py:125-177 | `apply_move` as written rewrites the caller's dictionary as its specification says, `player` being the y coordinate of the first triple |
| ApplyMove.ApplyMoveCorrected | src/moves.py:125-177 | `apply_move` with `player` read as the colour of the first triple, rewriting the dictionary in place |
| ApplyMove.MoveAllRaises | src/moves.py:175-177 | the move loop raises nothing but `KeyError` |
| ApplyMove.ApplyParsedRaises | src/moves.py:150-177 | once the marbles are extracted, only `KeyError` can be raised |
| ApplyMove.ApplyMoveErrors | src/moves.py:134-148 | `ValueError` iff the string holds no arrow, `IndexError` iff no triple precedes the arrow found, and the board is untouched in both cases |
| ApplyMove.ApplyMoveIntendedErrors | src/moves.py:134-148 | the same error behaviour with `player` read as the colour |
| ApplyMove.MoveAllSpec | src/moves.py:175-177 | moving marbles of one value, one step each, writes that value on every destination, deletes every origin that is not a destination, and changes nothing else |
| ApplyMove.ShiftSpec | src/moves.py:164-172 | the shift keeps the key set, writes the colour on exactly the run's successors that are keys, and a successor off the board simply vanishes |
| ApplyMove.MarbleCellSets | src/moves.py:145-147 | the triples of a rendered group start on the group's cells and move onto its successors |
| ApplyMove.SingleParse | src/moves.py:134-147 | a generated single move reads back as its marble moving along its direction |
| ApplyMove.InlineParse | src/moves.py:134-147 | a generated inline move reads back as its group moving along its direction |
| ApplyMove.PushParse | src/moves.py:134-147 | a generated push reads back as its group only, not the opposing run after the arrow |
| ApplyMove.SideStepParse | src/moves.py:134-147 | a generated side-step reads back as its group moving along the side direction |
| ApplyMove.GroupMoveParse | src/moves.py:134-147 | a group's text, an arrow and an arrow-free tail read back as the group moving along that arrow |
| ApplyMove.UnopposedEffect | src/moves.py:153-177 | marbles moving onto free cells push nothing, whichever way `player` is read |
| ApplyMove.ParsedEffect | src/moves.py:147-177 | a move string that reads back as one player's marbles moving onto free keys has the same effect whichever way `player` is read, and moves that group one step |
| ApplyMove.SingleEffect | src/moves.py:153-177 | a generated single move: nothing is raised, the destination gets the colour, the origin is deleted, and nothing else changes |
| ApplyMove.InlineEffect | src/moves.py:153-177 | a generated inline move: the group moves one step, the tail cell is deleted, and nothing else changes |
| ApplyMove.SideStepEffect | src/moves.py:153-177 | a generated side-step: every destination gets the colour, every origin is deleted, and nothing else changes |
| ApplyMove.GeneratedMoveEffect | src/moves.py:153-177 | for any generated single, inline or side-step move onto `'N'` cells, each destination gets the mover's colour, origins that are not destinations are removed, no other key changes, and the `player` reading is irrelevant |
| ApplyMove.RunTargetsOffGroup | src/moves.py:164-177 | the cells a pushed run shifts onto are neither the group's cells nor its destinations |
| ApplyMove.PastGroup | src/moves.py:164-177 | a cell one step past the pushed run is neither a cell of the group nor one of its destinations |
| ApplyMove.ChainIsRun | src/moves.py:157-160 | with `player` read as the colour, the scan of a legal push finds exactly the generator's opposing run |
| ApplyMove.PushOutcome | src/moves.py:164-177 | a push whose scan finds the generator's run deletes the group's first cell, moves the group one step, and writes the shift colour on the run's successors |
| ApplyMove.ChainAsWritten | src/moves.py:157-160 | as written, the scan finds the generator's run when the cell behind it is free or off the board |
| ApplyMove.WrittenPushEffect | src/moves.py:148-177 | as written, a push writes `'w'` on the cells the run is shifted onto, whoever pushes |
| ApplyMove.IntendedPushEffect | src/moves.py:148-177 | with `player` read as the colour, a push writes the opponent's colour on the cells the run is shifted onto |
| ApplyMove.PushTurnsBlackWhite | src/moves.py:148 | white pushing one black marble with two: as written the pushed cell becomes `'w'`, as intended `'b'` |
| Heuristic.OpponentOf | src/heuristic.py:59 | the opponent is a colour and never the player; for a player `'b'` or `'w'`, the two are black and white |
| Heuristic.NeighboursAreSteps | src/heuristic.py:65 | the six offsets of the danger test are the six move directions, in the same order |
| Heuristic.NeighbourCountSpec | src/heuristic.py:64-67 | the running count is the number of offsets reading the opponent, and only offsets that are keys can count |
| Heuristic.MarblesInDanger | src/heuristic.py:47-71 | `marbles_in_danger` counts exactly the player's cells with two or more opponent neighbours, at most the number of player marbles |
| Heuristic.IsolatedNotInDanger | src/heuristic.py:66 | neighbours missing from the dictionary never count (`board.get` gives `None`) |
| Heuristic.InDangerSpec | src/heuristic.py:61-70 | a cell is counted iff it holds the player and two or more distinct offsets around it hold the opponent |
| Heuristic.OpponentTerritory | src/heuristic.py:97-110 | the territory is exactly the opponent's cells with `x + y > 1` |
| Heuristic.TerritoryDisjoint | src/heuristic.py:109-110 | no territory cell holds any other value |
| Heuristic.FormationCountZero | src/heuristic.py:89-92 | the integer count in `break_opponent_formation` is always 0: counted cells hold the player and territory cells the opponent |
| Transposition.PositionsCount | src/transposition_tables.py:29-35 | there are 61 cube cells with coordinates in -4..4 summing to zero |
| Transposition.PieceKeysCount | src/transposition_tables.py:37 | each piece contributes one key per cube cell |
| Transposition.ZobristKeysCount | src/transposition_tables.py:29-37 | the Zobrist table has 122 keys |
| Transposition.InitializeZobrist | src/transposition_tables.py:23-37 | one constant per (cube cell, `'w'` or `'b'`), drawn from the given random source |
| Transposition.XorRemove | src/transposition_tables.py:52-53 | any item can be the last one folded into the hash, so the hash does not depend on iteration order |
| Transposition.XorOverWord | src/transposition_tables.py:52-53 | the fold of 64-bit constants is a 64-bit value |
| Transposition.HashWord | src/transposition_tables.py:49-55 | the hash is a 64-bit value |
| Transposition.HashDefined | src/transposition_tables.py:36-53 | hashing succeeds iff every key is a cube cell valued `'w'` or `'b'` and the side is `'b'` or `'w'`; otherwise it raises `KeyError` |
| Transposition.HashAddCell | src/transposition_tables.py:53 | adding an occupied cell XORs its constant into the hash |
| Transposition.XorAgree | src/transposition_tables.py:52-53 | the hash reads only the items it folds |
| Transposition.HashSwitchSide | src/transposition_tables.py:54 | switching the side to move XORs `player_hash['b'] ^ player_hash['w']` into the hash |
| Transposition.ReplaceSpec | src/transposition_tables.py:63-65 | `store` writes iff the key is absent or the new depth is at least the stored one, never lowers a recorded depth, and never touches another key |
| Transposition.TranspositionTable.constructor | src/transposition_tables.py:15-21 | an empty cache, the Zobrist constants and one constant per side |
| Transposition.TranspositionTable.HashGameState | src/transposition_tables.py:49-55 | the loop computes the XOR of the items' constants and the side's constant, raising `KeyError` for a missing key; with the constructed tables it succeeds exactly on boards of cube cells valued `'w'` or `'b'` for the side `'b'` or `'w'` |
| Transposition.TranspositionTable.Lookup | src/transposition_tables.py:57-59 | `lookup` returns the entry under the hash, or `None`, and raises `KeyError` exactly when hashing does |
| Transposition.TranspositionTable.Store | src/transposition_tables.py:61-65 | `store` applies the depth-preferred replacement to the cache and keeps the constants, so the constructed table shape is kept; an unhashable board raises `KeyError` and stores nothing |
| Transposition.TranspositionTable.Clear | src/transposition_tables.py:67-69 | `clear` empties the cache and keeps the constants, so the constructed table shape is kept |
| Bitwise.XorDigits | src/transposition_tables.py:53 | the lowest digit of `a ^ b` is the XOR of the lowest digits, and the rest is the XOR of the rest |
| Bitwise.XorCommutes | src/transposition_tables.py:53 | `^` is commutative |
| Bitwise.XorAssociates | src/transposition_tables.py:53 | `^` is associative |
| Bitwise.XorSelf | src/transposition_tables.py:54 | `a ^ a == 0` |
| Bitwise.XorWord | src/transposition_tables.py:53 | the XOR of two 64-bit values is a 64-bit value |
| Text.NatToStringRoundTrip | src/board.py:127-128 | `int(str(n)) == n` for every `n >= 0` |
| Text.SplitJoin | src/board.py:76 | splitting a comma-joined list of comma-free parts gives the parts back |
| Text.IndexOf | src/moves.py:141 | the index found is the first occurrence of the character, or the length when there is none |

## Left out

- Floating-point heuristics are not part of this model: `distance_to_center` (uses `math.sqrt`), `marbles_coherence` (a variance), and the float subtraction in `break_opponent_formation`. The cached score in the transposition table is a Dafny `real`, and no arithmetic is done on it.
- `random.seed(42)` and `random.getrandbits(64)`: the constructor of the transposition table takes the 122 Zobrist constants (a function from keys to 64-bit values) and the two side constants as parameters. The particular values the seed produces are not modelled.
- Dictionary insertion order: loops over `board.items()` take the keys in an unspecified order. The generators' output is therefore specified as a set of moves, each emitted once, not as a particular list order. `tostring_board` sorts its output, so it does not depend on this order.
- `TranspositionEntry` is a datatype (a value), not a class: nothing updates an entry in place.
- The `flag` argument of `store` is kept as a string. Its meaning for the search is not part of this model.
- File I/O: `get_input_board_representation` reads the player and configuration lines from a file. It is modelled from the configuration line on, as a parameter, for both generations. `write_to_move_file` and `write_to_board_file` are not part of this model.
- The `print` debugging lines in `apply_move`, and the output of `print_board`: the model returns the text it would print.
- `main` in moves.py and src/board_test.py, the search driver, the menus and the file paths are not part of this model.
- The regular expression classes `\d` and `\w`, and `int()` of a digit, are modelled over ASCII only. Python also accepts other Unicode digits and letters.
- `apply_move` reads back the newer move format of `src/moves.py`. The older strings of `moves.py` are modelled and their shape is proved, but they are never given to `apply_move`.
- ApplyMove.WrittenPushEffect: stated only for pushes where the cell behind the opposing run is free or off the board. When the player's own marble stands there, the scan as written runs on through it. That case is covered only by the general specification `ApplyMove.ApplyMoveSpec`.
- ApplyMove.GeneratedMoveEffect: stated for moves rendered in the newer format, the one `apply_move` reads.
- GameBoard.ToStringBoard: requires every occupied cell's `y + 69` to be a character code. `chr` raises `ValueError` below 0 and above 0x10FFFF, and Dafny characters have no surrogates; that error path is not modelled. Every decoded board meets the requirement (`GameBoard.DecodedPrintable`).
- BoardTest.PrintBoard: requires the same of every key, `'N'` cells included, for the same reason.
- GameBoard.NotationRoundTrip: requires at least one marble, because the empty notation splits into one empty token, which raises `IndexError` (`GameBoard.EmptyNotationFails`).
- Heuristic.MarblesInDanger: the count is a Dafny `nat`; Python's unbounded `int` needs no overflow model.
- A marble pushed off the board simply vanishes (the source's `pass`). No score is kept.

## Findings

| source | as written | input that shows it | evidently intended | confidence | as-written member | corrected member |
|---|---|---|---|---|---|---|
| src/moves.py:148 | `player = marbles[0][1]` reads the y coordinate of the first triple, so `player` is never a colour: the push scan stops only at `'N'` or off the board, and pushed marbles are always written `'w'` | board with `w` at `(0, 0)` and `(1, 0)`, `b` at `(2, 0)`, `N` at `(3, 0)`; move `(0, 0, w)-(1, 0, w)→p(2, 0, b)`: afterwards `(3, 0)` holds `'w'`, so white gains a marble and black loses one | `player = marbles[0][2]`, the colour: the pushed marble keeps the opponent's colour, and the scan stops at the player's own marbles | not executed | ApplyMove.PushTurnsBlackWhite | ApplyMove.IntendedPushEffect |
