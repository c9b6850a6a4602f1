# Simplified chess rules engine and greedy opponent, in Dafny

This project models the rules engine of `pygame_chess_ai.py`, a two-player chess game on an
8x8 grid with no check, castling or en passant, and its one-ply greedy opponent. It covers:

- the occupancy queries;
- the initial layout;
- the per-piece move generators: pawn, knight, sliding walk and king;
- the side-wide generator, which scans the board row by row;
- move application with automatic promotion to a queen;
- capture valuation, the opponent's choice of the most valuable capture, and the
  end-of-game test.

A piece is a `(Color, Kind)` pair, where `pygame_chess_ai.py` uses strings such as `"wP"`. A
cell is `Option<Piece>` and empty where the Python board holds `None`. The board is a value of type
`seq<seq<Cell>>` with 8 rows of 8 cells. Consequently `make_move` cannot alter the board it
was given. Moves are `Move(src, dst)` over `(row, column)` pairs, and lists keep the Python code's
order.

Each generator appears twice:

- a left-recursive specification function that says which moves it yields and in which
  order (`PawnMoves`, `KnightMoves`, `Slides`/`Ray`, `KingMoves`, `PieceMoves`, `AllMoves`);
- a method with the Python code's loops that is proved equal to that function.

Properties are then proved about the functions. Modules:

- `Board` (`board.dfy`): types, occupancy queries, the initial board.
- `MoveGen` (`movegen.dfy`): generator functions and methods.
- `MoveRules` (`movegen_props.dfy`): what the generated lists contain.
- `Apply` (`apply.dfy`): `make_move`.
- `Ai` (`ai.dfy`): capture values, `choose_ai_move` and `no_moves_left`.

Two behaviours of `pygame_chess_ai.py` are kept exactly:

- Same-square move: a move whose source and destination coincide leaves that square empty,
  unless a pawn promotes there (lines 213-220 write the destination, clear the source, then
  place the queen). `AppliedDestination` states this.
- Move order: generated moves come in row-major order of their source squares, then in each
  generator's direction order (lines 87-91). Every list in the model keeps that order.

## Model

| member | source | states |
|---|---|---|
| Board.InBounds | pygame_chess_ai.py:69-70 | a square passing the test is one of the 64 cells of the row-major grid |
| Board.IsEmpty | pygame_chess_ai.py:73-74 | an empty square is always on the board: off the board the query is false rather than a fault |
| Board.IsEnemy | pygame_chess_ai.py:77-78 | an enemy square is on the board and occupied |
| Board.IsFriend | pygame_chess_ai.py:81-82 | a friendly square is on the board, occupied, and never also an enemy square |
| Board.OccupancyQueries | pygame_chess_ai.py:69-82 | off the board `is_empty`, `is_enemy` and `is_friend` are false; `is_enemy` and `is_friend` never both hold; on the board exactly one of empty / enemy / friend holds |
| Board.EnemyIsOpponentsFriend | pygame_chess_ai.py:77-82 | a square is an enemy of one side exactly when it is a friend of the other |
| Board.CreateInitialBoard | pygame_chess_ai.py:51-66 | the loops build exactly the starting layout: pawns on rows 6 and 1, back ranks R N B Q K B N R on rows 7 (white) and 0 (black), all else empty |
| Board.InitialBoardMirrored | pygame_chess_ai.py:51-66 | the starting layout is mirror-symmetric: row r and row 7-r hold the same kinds for opposite sides |
| MoveGen.GeneratePawnMoves | pygame_chess_ai.py:135-156 | the pawn loop yields exactly `PawnMoves`: single push, double push, then the two diagonal captures in that order |
| MoveGen.GeneratePawnCaptures | pygame_chess_ai.py:149-154 | the capture loop over column offsets -1, 1 yields exactly the diagonal moves onto enemies, left first |
| MoveGen.GenerateKnightMoves | pygame_chess_ai.py:159-176 | the knight loop yields exactly `KnightMoves`: the eight offsets in source order, each kept when on the board and not on a friend |
| MoveGen.GenerateHops | pygame_chess_ai.py:161-175 | the loop over an offset list yields exactly `Hops` of the whole list, in list order |
| MoveGen.GenerateSlidingMoves | pygame_chess_ai.py:179-192 | the direction loop yields exactly `Slides`: the concatenation of the walks in direction order |
| MoveGen.GenerateRay | pygame_chess_ai.py:182-191 | the `while` walk with its `break` yields exactly `Ray` for one direction |
| MoveGen.GenerateKingMoves | pygame_chess_ai.py:195-206 | the nested loops over -1, 0, 1 yield exactly `KingMoves`, skipping the null step |
| MoveGen.GenerateMovesForPiece | pygame_chess_ai.py:95-132 | dispatch by kind yields exactly `PieceMoves`: an empty square yields none, bishop, rook and queen use their direction lists |
| MoveGen.FilterMovesFrom | pygame_chess_ai.py:295-297 | the moves offered for a selected square are exactly that square's `PieceMoves` |
| MoveGen.GenerateRowMoves | pygame_chess_ai.py:88-91 | the inner column loop of `generate_moves` yields the friendly pieces' lists of one row, left to right |
| MoveGen.GenerateMoves | pygame_chess_ai.py:85-92 | the side-wide loops yield exactly `AllMoves`, the row-major concatenation of the friendly pieces' lists |
| MoveRules.PawnMovesExactly | pygame_chess_ai.py:135-156 | a move is a pawn move iff it is the single push onto an empty square, the double push from the start row (6 white, 1 black) over two empty squares, or a diagonal step onto an enemy |
| MoveRules.PawnMovesLand | pygame_chess_ai.py:135-156 | every pawn move starts at the pawn and lands on the board, on another square, never on a friend |
| MoveRules.PawnOnClearBoard | pygame_chess_ai.py:135-147 | a lone pawn has exactly the single push, plus the double push when on its start row |
| MoveRules.HopsExactly | pygame_chess_ai.py:161-175 | a move is among the jumps by the first n offsets of a list iff its offset is one of them and it lands on the board off a friend |
| MoveRules.KnightMovesExactly | pygame_chess_ai.py:159-176 | a move is a knight move iff its offset is one of the eight and it lands on the board off a friend |
| MoveRules.KnightMovesLand | pygame_chess_ai.py:159-176 | every knight move lands on the board, on another square, never on a friend |
| MoveRules.HopsCount | pygame_chess_ai.py:161-175 | with no other piece, the number of jumps is the number of offsets that stay on the board |
| MoveRules.KnightInCentre | pygame_chess_ai.py:159-176 | a lone knight at (4, 4) has exactly 8 moves |
| MoveRules.KnightInCorner | pygame_chess_ai.py:159-176 | a lone knight at (0, 0) has exactly 2 moves |
| MoveRules.KingMovesExactly | pygame_chess_ai.py:195-206 | a move is a king move iff it goes to one of the eight neighbours, never its own square, on the board and off a friend |
| MoveRules.KingMovesLand | pygame_chess_ai.py:195-206 | every king move lands on the board, on another square, never on a friend |
| MoveRules.KingMovesInOrder | pygame_chess_ai.py:197-205 | the king's list is the row -1 steps, then row 0, then row 1 |
| MoveRules.KingCount | pygame_chess_ai.py:197-205 | the king's move count is the sum over the eight non-null steps |
| MoveRules.KingInCentre | pygame_chess_ai.py:195-206 | a lone king at (4, 4) has exactly 8 moves |
| MoveRules.KingInCorner | pygame_chess_ai.py:195-206 | a lone king at (0, 0) has exactly 3 moves |
| MoveRules.RaySquares | pygame_chess_ai.py:182-191 | the k-th square of a walk is k steps along the direction, on the board and not friendly |
| MoveRules.RayPassesEmpty | pygame_chess_ai.py:184-185 | every square of a walk except the last is empty |
| MoveRules.RayStops | pygame_chess_ai.py:183-191 | a walk ends on an enemy it captures, or just before the edge of the board, or just before a friend |
| MoveRules.RayPathIsEmpty | pygame_chess_ai.py:182-191 | every square strictly between the slider and a recorded square is empty |
| MoveRules.RayLands | pygame_chess_ai.py:182-191 | every move of a walk starts at the slider and lands on the board, off its square and off a friend |
| MoveRules.RayOnClearBoard | pygame_chess_ai.py:182-191 | with no other piece, a walk covers every square up to the edge |
| MoveRules.SlidesLand | pygame_chess_ai.py:179-192 | every sliding move lands on the board, off the slider's square and off a friend |
| MoveRules.SlidesExactly | pygame_chess_ai.py:179-192 | a move is a sliding move iff it lies on the walk of one of the directions |
| MoveRules.SlidesAppend | pygame_chess_ai.py:179-192 | sliding over two direction lists in a row is sliding over each, concatenated |
| MoveRules.SlidesOnClearBoard | pygame_chess_ai.py:179-192 | with no other piece, the move count is the sum of the clear walk lengths |
| MoveRules.ClearRaysOfFour | pygame_chess_ai.py:179-192 | the clear-board count over four directions is the sum of the four walk lengths |
| MoveRules.RookRays | pygame_chess_ai.py:109-112 | with no other piece, a rook's four walks give exactly 14 moves from any square |
| MoveRules.BishopRays | pygame_chess_ai.py:105-108 | with no other piece, a bishop's four walks give the sum of the four diagonal distances to the edge |
| MoveRules.RookOnClearBoard | pygame_chess_ai.py:109-112 | a lone rook has exactly 14 moves |
| MoveRules.BishopOnClearBoard | pygame_chess_ai.py:105-108 | a lone bishop has the four diagonal distances to the edge as moves |
| MoveRules.QueenOnClearBoard | pygame_chess_ai.py:113-129 | a lone queen has 14 plus the bishop's count of moves |
| MoveRules.RookInCornerCount | pygame_chess_ai.py:109-112 | a white rook alone at (7, 0) has exactly 14 moves |
| MoveRules.LoneLeaperCounts | pygame_chess_ai.py:159-206 | on boards holding only that piece: knight 8 at (4, 4) and 2 at (0, 0), king 8 at (4, 4) and 3 at (0, 0) |
| MoveRules.PieceMovesLand | pygame_chess_ai.py:95-132 | every move of an occupied square starts there and lands on the board, elsewhere, off a piece of its own side |
| MoveRules.SquareMovesExactly | pygame_chess_ai.py:88-91 | a square contributes a move to its side's scan iff it holds a piece of that side and the move is one of the piece's |
| MoveRules.RowMovesExactly | pygame_chess_ai.py:88-91 | a move is in the scan of the first n squares of a row iff it comes from one of them and is that square's move |
| MoveRules.BoardMovesExactly | pygame_chess_ai.py:87-91 | a move is in the scan of the first n rows iff it comes from a square of them and is that square's move |
| MoveRules.AllMovesExactly | pygame_chess_ai.py:85-92 | a move is generated for a side iff its source is on the board, holds a piece of that side, and the move is one of that piece's |
| MoveRules.AllMovesLand | pygame_chess_ai.py:85-92 | every generated move starts on a piece of the side and lands on the board, elsewhere, off a friend |
| MoveRules.NoMovesMeansAllStuck | pygame_chess_ai.py:85-92 | a side has no move iff each of its pieces has no move |
| MoveRules.NoPiecesNoMoves | pygame_chess_ai.py:85-92 | a side with no piece on the board has no move |
| MoveRules.PawnAdvanceListed | pygame_chess_ai.py:140-143 | a pawn with an empty square ahead has its single push in its side's list |
| MoveRules.InitialBoardHasMoves | pygame_chess_ai.py:51-66 | on the starting board both sides have a move, so neither has lost |
| Apply.MakeMove | pygame_chess_ai.py:209-221 | copying, writing the destination, clearing the source and promoting gives exactly `Applied`, cell by cell |
| Apply.AppliedFrame | pygame_chess_ai.py:213-215 | every cell other than the source and the destination is unchanged |
| Apply.AppliedSource | pygame_chess_ai.py:215 | the source is empty afterwards when source and destination differ |
| Apply.AppliedDestination | pygame_chess_ai.py:214-220 | the destination holds the moved piece, or a queen of its side when a white pawn reaches row 0 or a black pawn row 7 |
| Apply.GeneratedMoveKeepsFriends | pygame_chess_ai.py:209-221 | after a generated move the mover's piece is on the destination, the source is empty, and the side's other pieces are where they were |
| Apply.OpeningDoubleStep | pygame_chess_ai.py:135-147 | from the start, White's pawn (6, 4) may go to (4, 4), after which Black's pawn (1, 4) may go to (3, 4) |
| Apply.PawnDoubleStepListed | pygame_chess_ai.py:144-147 | a pawn on its start row with two empty squares ahead has its double step in its side's list |
| Apply.DoubleStepOnlyFromStart | pygame_chess_ai.py:140-147 | a lone pawn off its start row has only its single push |
| Ai.PieceValue | pygame_chess_ai.py:38-45 | each kind is worth between 100 and 10000 |
| Ai.PieceValuesOrdered | pygame_chess_ai.py:38-45 | pawn < knight < bishop < rook < queen < king |
| Ai.CapturedValue | pygame_chess_ai.py:224-229 | 0 exactly for an empty destination, otherwise the occupant's piece value |
| Ai.AllMovesOnBoard | pygame_chess_ai.py:233 | every generated destination can be valued |
| Ai.BestValueIsMaximum | pygame_chess_ai.py:238-246 | the running best value bounds every move's value and is attained, and is -1 only for no moves |
| Ai.TiesExactly | pygame_chess_ai.py:238-246 | a move is kept for value v iff it is in the list and captures v |
| Ai.TiesAboveBest | pygame_chess_ai.py:242-244 | nothing ties for a value above the best so far, so a new best restarts the list |
| Ai.CandidatesAreBest | pygame_chess_ai.py:237-248 | there are candidates iff there are moves, and each candidate captures at least as much as every move |
| Ai.CapturePreferred | pygame_chess_ai.py:237-248 | when some move captures, every candidate captures |
| Ai.SingleTie | pygame_chess_ai.py:238-246 | a value captured by one move only has that move as its sole tie |
| Ai.UniqueBestIsChosen | pygame_chess_ai.py:237-248 | a move capturing strictly more than every other, such as the only capture of a queen, is the sole candidate |
| Ai.ChooseAiMove | pygame_chess_ai.py:232-248 | none iff the side has no move; otherwise the pick-th candidate, which is generated and whose value no generated move exceeds |
| Ai.NoMovesLeft | pygame_chess_ai.py:300-301 | true iff the side has no move, iff each of its pieces has none |

## Left out

- Rendering, glyphs and colours (`draw_board`, `draw_highlights`, `draw_pieces`), the event
  loop, font probing, mouse mapping (`pos_from_mouse`), delays and exit. These are
  presentation and I/O with no rules logic.
- Ai.ChooseAiMove: the uniformly random `random.choice` is replaced by a caller-supplied
  `pick`, and the result is the candidate at `pick` modulo the candidate count. Uniformity is
  not modelled.
- Apply.MakeMove: requires both squares on the board. Python would accept negative indices
  by wrapping, but every generated move is on the board (`AllMovesLand`).
- Ai.CapturedValue: requires the destination on the board. Python would index a negative
  square by wrapping, but its one caller (line 241) only values generated moves, which are
  on the board (`AllMovesOnBoard`).
- MoveGen.GenerateMovesForPiece and MoveGen.FilterMovesFrom: require the square on the board,
  for the same reason. Callers only pass board squares.
- MoveGen.GenerateSlidingMoves: requires non-null directions, as every direction list passed
  at lines 105-129 has. With a null step the Python walk stops at once with no move when
  the slider's own square is occupied, and never ends when that square is empty.
- Check, king safety, castling, en passant and under-promotion are absent from `pygame_chess_ai.py`
  and from the model.
- Loop structure: the inner loops of `generate_moves`, of the pawn capture loop, of the
  knight's offset loop and of the sliding walk are written as the separate methods
  `GenerateRowMoves`, `GeneratePawnCaptures`, `GenerateHops` and `GenerateRay`. They run
  the same loops in the same order.
- Mutation and aliasing: the board is a value type, so the input board of `make_move` is
  unchanged by construction. In-place updates of the Python lists are not modelled beyond
  that.
