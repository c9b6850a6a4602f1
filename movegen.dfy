/** Move generation. Each generator of pygame_chess_ai.py appears twice: as a specification
    function that says which moves it yields and in which order, and as a method that
    builds the list with the same loops as the Python code and is proved equal to that
    function. */
module MoveGen {
  import opened Board

  // ---------------------------------------------------------------- pawns

  /** Row step of a pawn: White moves towards row 0, Black towards row 7. */
  function Forward(color: Color): int {
    if color == White then -1 else 1
  }

  /** The row a pawn starts on, the only row it may step two squares from. */
  function StartRow(color: Color): int {
    if color == White then 6 else 1
  }

  /** Column offsets of the two diagonal captures, in the order they are tried. */
  const PawnCaptureCols: seq<int> := [-1, 1]

  /** The forward moves: one step onto an empty square, then from the start row a second
      step onto an empty square. */
  function PawnPushes(b: Board, r: int, c: int, color: Color): seq<Move>
    requires InBounds(r, c)
  {
    var nr := r + Forward(color);
    if InBounds(nr, c) && b[nr][c].None? then
      var nr2 := r + 2 * Forward(color);
      [Move((r, c), (nr, c))]
        + (if r == StartRow(color) && b[nr2][c].None? then [Move((r, c), (nr2, c))] else [])
    else []
  }

  /** The diagonal move to column offset `dc`, present only onto an enemy piece. */
  function PawnCapture(b: Board, r: int, c: int, color: Color, dc: int): seq<Move> {
    var nr, nc := r + Forward(color), c + dc;
    if InBounds(nr, nc) && IsEnemy(b, nr, nc, color) then [Move((r, c), (nr, nc))] else []
  }

  /** The diagonal moves for the first `n` capture columns. */
  function PawnCaptures(b: Board, r: int, c: int, color: Color, n: nat): seq<Move>
    requires n <= |PawnCaptureCols|
  {
    if n == 0 then []
    else PawnCaptures(b, r, c, color, n - 1) + PawnCapture(b, r, c, color, PawnCaptureCols[n - 1])
  }

  function PawnMoves(b: Board, r: int, c: int, color: Color): seq<Move>
    requires InBounds(r, c)
  {
    PawnPushes(b, r, c, color) + PawnCaptures(b, r, c, color, |PawnCaptureCols|)
  }

  method GeneratePawnMoves(b: Board, r: int, c: int, color: Color) returns (moves: seq<Move>)
    requires InBounds(r, c)
    ensures moves == PawnMoves(b, r, c, color)
  {
    moves := [];
    var dirStep := if color == White then -1 else 1;
    var startRow := if color == White then 6 else 1;
    assert dirStep == Forward(color) && startRow == StartRow(color);
    var nr := r + dirStep;
    if InBounds(nr, c) && b[nr][c].None? {
      moves := moves + [Move((r, c), (nr, c))];
      var nr2 := r + 2 * dirStep;
      if r == startRow && b[nr2][c].None? {
        moves := moves + [Move((r, c), (nr2, c))];
      }
    }
    var captures := GeneratePawnCaptures(b, r, c, color);
    moves := moves + captures;
  }

  /** The capture loop of the pawn generator: the two diagonal squares ahead, left first,
      each kept when it holds an enemy piece. */
  method GeneratePawnCaptures(b: Board, r: int, c: int, color: Color) returns (moves: seq<Move>)
    ensures moves == PawnCaptures(b, r, c, color, |PawnCaptureCols|)
  {
    moves := [];
    var nr := r + Forward(color);
    for k := 0 to |PawnCaptureCols|
      invariant moves == PawnCaptures(b, r, c, color, k)
    {
      var nc := c + PawnCaptureCols[k];
      if InBounds(nr, nc) && IsEnemy(b, nr, nc, color) {
        assert PawnCapture(b, r, c, color, PawnCaptureCols[k]) == [Move((r, c), (nr, nc))];
        moves := moves + [Move((r, c), (nr, nc))];
      } else {
        assert PawnCapture(b, r, c, color, PawnCaptureCols[k]) == [];
      }
    }
  }

  // ---------------------------------------------------------------- knights and kings

  /** A single jump by offset `d`: kept when it lands on the board and not on a friend. */
  function Hop(b: Board, r: int, c: int, color: Color, d: (int, int)): seq<Move> {
    var nr, nc := r + d.0, c + d.1;
    if !InBounds(nr, nc) then []
    else if !IsFriend(b, nr, nc, color) then [Move((r, c), (nr, nc))]
    else []
  }

  /** The jumps by the first `n` offsets of `offs`, in list order. */
  function Hops(b: Board, r: int, c: int, color: Color, offs: seq<(int, int)>, n: nat): seq<Move>
    requires n <= |offs|
  {
    if n == 0 then [] else Hops(b, r, c, color, offs, n - 1) + Hop(b, r, c, color, offs[n - 1])
  }

  const KnightOffsets: seq<(int, int)> :=
    [(-2, -1), (-2, 1), (-1, -2), (-1, 2), (1, -2), (1, 2), (2, -1), (2, 1)]

  function KnightMoves(b: Board, r: int, c: int, color: Color): seq<Move> {
    Hops(b, r, c, color, KnightOffsets, |KnightOffsets|)
  }

  /** The knight's loop over a list of offsets: every jump that lands on the board and
      not on a friend, in the order of the list. */
  method GenerateHops(b: Board, r: int, c: int, color: Color, offs: seq<(int, int)>) returns (moves: seq<Move>)
    ensures moves == Hops(b, r, c, color, offs, |offs|)
  {
    moves := [];
    for i := 0 to |offs|
      invariant moves == Hops(b, r, c, color, offs, i)
    {
      var (dr, dc) := offs[i];
      var nr, nc := r + dr, c + dc;
      if !InBounds(nr, nc) {
        assert Hop(b, r, c, color, (dr, dc)) == [];
        continue;
      }
      if !IsFriend(b, nr, nc, color) {
        assert Hop(b, r, c, color, (dr, dc)) == [Move((r, c), (nr, nc))];
        moves := moves + [Move((r, c), (nr, nc))];
      } else {
        assert Hop(b, r, c, color, (dr, dc)) == [];
      }
    }
  }

  method GenerateKnightMoves(b: Board, r: int, c: int, color: Color) returns (moves: seq<Move>)
    ensures moves == KnightMoves(b, r, c, color)
  {
    moves := GenerateHops(b, r, c, color, KnightOffsets);
  }

  /** The king's step by (dr, dc); the null step (0, 0) is skipped. */
  function KingStep(b: Board, r: int, c: int, color: Color, dr: int, dc: int): seq<Move> {
    if dr == 0 && dc == 0 then [] else Hop(b, r, c, color, (dr, dc))
  }

  /** Steps with row offset `dr` and the first `n` column offsets -1, 0, 1. */
  function KingRow(b: Board, r: int, c: int, color: Color, dr: int, n: nat): seq<Move> {
    if n == 0 then [] else KingRow(b, r, c, color, dr, n - 1) + KingStep(b, r, c, color, dr, n - 2)
  }

  /** Steps with the first `n` row offsets -1, 0, 1. */
  function KingRows(b: Board, r: int, c: int, color: Color, n: nat): seq<Move> {
    if n == 0 then [] else KingRows(b, r, c, color, n - 1) + KingRow(b, r, c, color, n - 2, 3)
  }

  function KingMoves(b: Board, r: int, c: int, color: Color): seq<Move> {
    KingRows(b, r, c, color, 3)
  }

  lemma KingRowStep(b: Board, r: int, c: int, color: Color, dr: int, j: nat)
    ensures KingRow(b, r, c, color, dr, j + 1) == KingRow(b, r, c, color, dr, j) + KingStep(b, r, c, color, dr, j - 1)
  {
  }

  method GenerateKingMoves(b: Board, r: int, c: int, color: Color) returns (moves: seq<Move>)
    ensures moves == KingMoves(b, r, c, color)
  {
    moves := [];
    for i := 0 to 3
      invariant moves == KingRows(b, r, c, color, i)
    {
      var dr := i - 1;
      for j := 0 to 3
        invariant moves == KingRows(b, r, c, color, i) + KingRow(b, r, c, color, dr, j)
      {
        var dc := j - 1;
        KingRowStep(b, r, c, color, dr, j);
        ConcatAssoc(KingRows(b, r, c, color, i), KingRow(b, r, c, color, dr, j), KingStep(b, r, c, color, dr, dc));
        if dr == 0 && dc == 0 {
          assert KingStep(b, r, c, color, dr, dc) == [];
          continue;
        }
        var nr, nc := r + dr, c + dc;
        if !InBounds(nr, nc) {
          assert KingStep(b, r, c, color, dr, dc) == [];
          continue;
        }
        if !IsFriend(b, nr, nc, color) {
          assert KingStep(b, r, c, color, dr, dc) == [Move((r, c), (nr, nc))];
          moves := moves + [Move((r, c), (nr, nc))];
        } else {
          assert KingStep(b, r, c, color, dr, dc) == [];
        }
      }
    }
  }

  // ---------------------------------------------------------------- sliding pieces

  const BishopDirs: seq<(int, int)> := [(-1, -1), (-1, 1), (1, -1), (1, 1)]
  const RookDirs: seq<(int, int)> := [(-1, 0), (1, 0), (0, -1), (0, 1)]
  const QueenDirs: seq<(int, int)> :=
    [(-1, -1), (-1, 1), (1, -1), (1, 1), (-1, 0), (1, 0), (0, -1), (0, 1)]

  /** No direction is the null step, so every walk makes progress. */
  predicate Steps(dirs: seq<(int, int)>) {
    forall i :: 0 <= i < |dirs| ==> dirs[i] != (0, 0)
  }

  /** How far a walk with step `d` from coordinate `x` may still go: it shrinks with each
      step along a non-null component and is never negative while on the board. */
  function Reach(x: int, d: int): int {
    if d > 0 then 8 - x else if d < 0 then x + 1 else 8
  }

  /** The walk in direction `d` of a slider at (r, c), now at (nr, nc): empty squares are
      recorded and passed, the first occupied square is recorded only if it holds an enemy,
      and the walk ends there or at the edge of the board. */
  function Ray(b: Board, r: int, c: int, color: Color, d: (int, int), nr: int, nc: int): seq<Move>
    requires d != (0, 0)
    decreases Reach(nr, d.0) + Reach(nc, d.1)
  {
    if !InBounds(nr, nc) then []
    else if b[nr][nc].None? then [Move((r, c), (nr, nc))] + Ray(b, r, c, color, d, nr + d.0, nc + d.1)
    else if IsEnemy(b, nr, nc, color) then [Move((r, c), (nr, nc))]
    else []
  }

  function Slides(b: Board, r: int, c: int, color: Color, dirs: seq<(int, int)>): seq<Move>
    requires Steps(dirs)
    decreases |dirs|
  {
    if dirs == [] then []
    else
      var d := dirs[|dirs| - 1];
      Slides(b, r, c, color, dirs[..|dirs| - 1]) + Ray(b, r, c, color, d, r + d.0, c + d.1)
  }

  method GenerateSlidingMoves(b: Board, r: int, c: int, color: Color, dirs: seq<(int, int)>)
    returns (moves: seq<Move>)
    requires Steps(dirs)
    ensures moves == Slides(b, r, c, color, dirs)
  {
    moves := [];
    for i := 0 to |dirs|
      invariant moves == Slides(b, r, c, color, dirs[..i])
    {
      assert dirs[..i + 1][..i] == dirs[..i];
      var walk := GenerateRay(b, r, c, color, dirs[i]);
      moves := moves + walk;
    }
    assert dirs[..|dirs|] == dirs;
  }

  /** One step of a walk from (nr, nc) whose moves so far are `moves`: its measure shrinks,
      and the moves after the step (passing an empty square, or stopping on an enemy or a
      friend) still add up to the whole walk `walk`. */
  lemma RayStep(b: Board, r: int, c: int, color: Color, d: (int, int), nr: int, nc: int,
                moves: seq<Move>, walk: seq<Move>)
    requires d != (0, 0) && InBounds(nr, nc)
    requires moves + Ray(b, r, c, color, d, nr, nc) == walk
    ensures Reach(nr + d.0, d.0) + Reach(nc + d.1, d.1) < Reach(nr, d.0) + Reach(nc, d.1)
    ensures 0 <= Reach(nr, d.0) + Reach(nc, d.1)
    ensures b[nr][nc].None? ==> moves + [Move((r, c), (nr, nc))] + Ray(b, r, c, color, d, nr + d.0, nc + d.1) == walk
    ensures IsEnemy(b, nr, nc, color) ==> moves + [Move((r, c), (nr, nc))] == walk
    ensures IsFriend(b, nr, nc, color) ==> moves == walk
  {
    var m, rest := Move((r, c), (nr, nc)), Ray(b, r, c, color, d, nr + d.0, nc + d.1);
    if b[nr][nc].None? {
      assert moves + ([m] + rest) == moves + [m] + rest;
    }
  }

  /** A walk that has left the board adds nothing more. */
  lemma RayEnd(b: Board, r: int, c: int, color: Color, d: (int, int), nr: int, nc: int,
               moves: seq<Move>, walk: seq<Move>)
    requires d != (0, 0) && !InBounds(nr, nc)
    requires moves + Ray(b, r, c, color, d, nr, nc) == walk
    ensures moves == walk
  {
    assert moves + [] == moves;
  }

  /** The inner loop of the sliding generator: one walk in direction `d`, square by
      square, until the edge of the board, a friend, or an enemy that is captured. */
  method GenerateRay(b: Board, r: int, c: int, color: Color, d: (int, int)) returns (moves: seq<Move>)
    requires d != (0, 0)
    ensures moves == Ray(b, r, c, color, d, r + d.0, c + d.1)
  {
    var dr, dc := d.0, d.1;
    var nr, nc := r + dr, c + dc;
    ghost var walk := Ray(b, r, c, color, d, nr, nc);
    moves := [];
    assert moves + walk == walk;
    while InBounds(nr, nc)
      invariant moves + Ray(b, r, c, color, d, nr, nc) == walk
      decreases Reach(nr, dr) + Reach(nc, dc)
    {
      RayStep(b, r, c, color, d, nr, nc, moves, walk);
      if b[nr][nc].None? {
        moves := moves + [Move((r, c), (nr, nc))];
      } else {
        if IsEnemy(b, nr, nc, color) {
          moves := moves + [Move((r, c), (nr, nc))];
        }
        break;
      }
      nr, nc := nr + dr, nc + dc;
    }
    if !InBounds(nr, nc) {
      RayEnd(b, r, c, color, d, nr, nc, moves, walk);
    }
  }

  // ---------------------------------------------------------------- per square and per side

  /** The moves of whatever piece stands on (r, c), by its kind. */
  function PieceMoves(b: Board, r: int, c: int): seq<Move>
    requires InBounds(r, c)
  {
    match b[r][c]
    case None => []
    case Some((color, kind)) =>
      match kind
      case Pawn => PawnMoves(b, r, c, color)
      case Knight => KnightMoves(b, r, c, color)
      case Bishop => Slides(b, r, c, color, BishopDirs)
      case Rook => Slides(b, r, c, color, RookDirs)
      case Queen => Slides(b, r, c, color, QueenDirs)
      case King => KingMoves(b, r, c, color)
  }

  method GenerateMovesForPiece(b: Board, r: int, c: int) returns (moves: seq<Move>)
    requires InBounds(r, c)
    ensures moves == PieceMoves(b, r, c)
  {
    var piece := b[r][c];
    if piece.None? {
      return [];
    }
    var (color, kind) := piece.value;
    match kind
    case Pawn => moves := GeneratePawnMoves(b, r, c, color);
    case Knight => moves := GenerateKnightMoves(b, r, c, color);
    case Bishop => moves := GenerateSlidingMoves(b, r, c, color, BishopDirs);
    case Rook => moves := GenerateSlidingMoves(b, r, c, color, RookDirs);
    case Queen => moves := GenerateSlidingMoves(b, r, c, color, QueenDirs);
    case King => moves := GenerateKingMoves(b, r, c, color);
  }

  /** The move list of a selected square, as offered to the human side. */
  method FilterMovesFrom(b: Board, r: int, c: int) returns (moves: seq<Move>)
    requires InBounds(r, c)
    ensures moves == PieceMoves(b, r, c)
  {
    moves := GenerateMovesForPiece(b, r, c);
  }

  /** The moves of the piece on (r, c) if it belongs to `color`, else none. */
  function SquareMoves(b: Board, color: Color, r: int, c: int): seq<Move>
    requires InBounds(r, c)
  {
    if b[r][c].Some? && b[r][c].value.0 == color then PieceMoves(b, r, c) else []
  }

  /** The moves from the first `n` squares of row `r`, left to right. */
  function RowMoves(b: Board, color: Color, r: int, n: nat): seq<Move>
    requires 0 <= r < Rows && n <= Cols
  {
    if n == 0 then [] else RowMoves(b, color, r, n - 1) + SquareMoves(b, color, r, n - 1)
  }

  /** The moves from the first `n` rows, top to bottom. */
  function BoardMoves(b: Board, color: Color, n: nat): seq<Move>
    requires n <= Rows
  {
    if n == 0 then [] else BoardMoves(b, color, n - 1) + RowMoves(b, color, n - 1, Cols)
  }

  /** Every move of side `color`, in row-major order of the source squares. */
  function AllMoves(b: Board, color: Color): seq<Move> {
    BoardMoves(b, color, Rows)
  }

  lemma ConcatAssoc(a: seq<Move>, b: seq<Move>, c: seq<Move>)
    ensures a + (b + c) == (a + b) + c
  {
  }

  lemma FriendSquareMoves(b: Board, color: Color, r: int, c: int)
    requires IsFriend(b, r, c, color)
    ensures SquareMoves(b, color, r, c) == PieceMoves(b, r, c)
  {
  }

  lemma OtherSquareMoves(b: Board, color: Color, r: int, c: int)
    requires InBounds(r, c) && !IsFriend(b, r, c, color)
    ensures SquareMoves(b, color, r, c) == []
  {
  }

  /** The inner loop of the side-wide scan: the squares of row `r`, left to right. */
  method GenerateRowMoves(b: Board, color: Color, r: int) returns (moves: seq<Move>)
    requires 0 <= r < Rows
    ensures moves == RowMoves(b, color, r, Cols)
  {
    moves := [];
    for c := 0 to Cols
      invariant moves == RowMoves(b, color, r, c)
    {
      if IsFriend(b, r, c, color) {
        var pieceMoves := GenerateMovesForPiece(b, r, c);
        FriendSquareMoves(b, color, r, c);
        moves := moves + pieceMoves;
      } else {
        OtherSquareMoves(b, color, r, c);
      }
    }
  }

  /** Every move of side `color`: the squares are scanned row by row, and each square
      holding a piece of that side contributes that piece's moves. */
  method GenerateMoves(b: Board, color: Color) returns (moves: seq<Move>)
    ensures moves == AllMoves(b, color)
  {
    moves := [];
    for r := 0 to Rows
      invariant moves == BoardMoves(b, color, r)
    {
      var rowMoves := GenerateRowMoves(b, color, r);
      moves := moves + rowMoves;
    }
  }


}
