/** Playing a move: the board after it, with automatic promotion of a pawn to a queen
    on the far rank. */
module Apply {
  import opened Board
  import opened MoveGen
  import opened MoveRules

  /** The row on which a pawn of `color` is promoted: row 0 for White, the last row for
      Black. */
  function PromotionRow(color: Color): int {
    if color == White then 0 else Rows - 1
  }

  /** The piece `p` promotes when it is a pawn arriving on its side's promotion row. */
  predicate Promotes(p: Cell, nr: int) {
    p.Some? && p.value.1 == Pawn && nr == PromotionRow(p.value.0)
  }

  /** What cell (i, j) holds after `m`: a promoted queen on the destination, otherwise an
      empty source, otherwise the moved piece on the destination, otherwise as before. */
  function AppliedCell(b: Board, m: Move, i: int, j: int): Cell
    requires InBounds(m.src.0, m.src.1) && InBounds(i, j)
  {
    var p := b[m.src.0][m.src.1];
    if (i, j) == m.dst && Promotes(p, m.dst.0) then Some((p.value.0, Queen))
    else if (i, j) == m.src then None
    else if (i, j) == m.dst then p
    else b[i][j]
  }

  /** The board after `m`, cell by cell. */
  function Applied(b: Board, m: Move): Board
    requires InBounds(m.src.0, m.src.1)
  {
    seq(Rows, (i: int) requires 0 <= i < Rows =>
      seq(Cols, (j: int) requires 0 <= j < Cols => AppliedCell(b, m, i, j)))
  }

  /** Copies the board, puts the moving piece on the destination, empties the source, and
      replaces a pawn arriving on its promotion row by a queen of its colour. The caller's
      board is a value and is left as it was. */
  method MakeMove(b: Board, m: Move) returns (nb: Board)
    requires InBounds(m.src.0, m.src.1) && InBounds(m.dst.0, m.dst.1)
    ensures nb == Applied(b, m)
  {
    var (r, c) := m.src;
    var (nr, nc) := m.dst;
    var piece := b[r][c];
    nb := b;
    nb := nb[nr := nb[nr][nc := piece]];
    nb := nb[r := nb[r][c := None]];
    if piece.Some? && piece.value.1 == Pawn {
      if (piece.value.0 == White && nr == 0) || (piece.value.0 == Black && nr == Rows - 1) {
        nb := nb[nr := nb[nr][nc := Some((piece.value.0, Queen))]];
      }
    }
    BoardsEqual(nb, Applied(b, m));
  }

  /** Only the source and the destination change. */
  lemma AppliedFrame(b: Board, m: Move, i: int, j: int)
    requires InBounds(m.src.0, m.src.1) && InBounds(i, j) && (i, j) != m.src && (i, j) != m.dst
    ensures Applied(b, m)[i][j] == b[i][j]
  {
  }

  /** The source is emptied, unless the move stays on its square. */
  lemma AppliedSource(b: Board, m: Move)
    requires InBounds(m.src.0, m.src.1) && m.src != m.dst
    ensures Applied(b, m)[m.src.0][m.src.1] == None
  {
  }

  /** The destination receives the moved piece, or a queen of its colour when a pawn
      reaches its promotion row: White on row 0, Black on row 7. A move that stays on its
      square and does not promote leaves that square empty, as the source is cleared after
      the destination is written. */
  lemma AppliedDestination(b: Board, m: Move)
    requires InBounds(m.src.0, m.src.1) && InBounds(m.dst.0, m.dst.1) && b[m.src.0][m.src.1].Some?
    ensures var (color, kind) := b[m.src.0][m.src.1].value;
      Applied(b, m)[m.dst.0][m.dst.1]
      == if kind == Pawn && ((color == White && m.dst.0 == 0) || (color == Black && m.dst.0 == 7))
         then Some((color, Queen))
         else if m.src == m.dst then None
         else Some((color, kind))
  {
  }

  /** After a move generated for `color`, the destination holds a piece of `color`, the
      source is empty, and every other piece of `color` is still where it was. */
  lemma GeneratedMoveKeepsFriends(b: Board, color: Color, m: Move)
    requires m in AllMoves(b, color)
    ensures InBounds(m.src.0, m.src.1) && InBounds(m.dst.0, m.dst.1)
    ensures IsFriend(Applied(b, m), m.dst.0, m.dst.1, color)
    ensures IsEmpty(Applied(b, m), m.src.0, m.src.1)
    ensures forall i, j :: InBounds(i, j) && IsFriend(b, i, j, color) && (i, j) != m.src ==>
      Applied(b, m)[i][j] == b[i][j]
  {
    AllMovesLand(b, color);
    assert Lands(b, m.src.0, m.src.1, color, m);
  }

  /** On the initial board White's king-side centre pawn may open with a double step,
      and Black can answer in kind. */
  lemma OpeningDoubleStep(b: Board)
    requires b == InitialBoard()
    ensures Move((6, 4), (4, 4)) in AllMoves(b, White)
    ensures Move((1, 4), (3, 4)) in AllMoves(Applied(b, Move((6, 4), (4, 4))), Black)
  {
    assert b[6][4] == Some((White, Pawn)) && b[5][4] == None && b[4][4] == None;
    PawnDoubleStepListed(b, 4, White);
    var a := Applied(b, Move((6, 4), (4, 4)));
    assert a[1][4] == Some((Black, Pawn)) && a[2][4] == None && a[3][4] == None;
    PawnDoubleStepListed(a, 4, Black);
  }

  /** A pawn on its start row with both squares ahead empty may step two squares, as
      part of its side's list. */
  lemma PawnDoubleStepListed(b: Board, c: int, color: Color)
    requires 0 <= c < Cols && b[StartRow(color)][c] == Some((color, Pawn))
    requires IsEmpty(b, StartRow(color) + Forward(color), c) && IsEmpty(b, StartRow(color) + 2 * Forward(color), c)
    ensures Move((StartRow(color), c), (StartRow(color) + 2 * Forward(color), c)) in AllMoves(b, color)
  {
    var r := StartRow(color);
    var m := Move((r, c), (r + 2 * Forward(color), c));
    PawnMovesExactly(b, r, c, color, m);
    AllMovesExactly(b, color, m);
  }

  /** Once a pawn has left its start row its double step is gone: a pawn alone on the
      board has a single move from any square that is not its start row. */
  lemma DoubleStepOnlyFromStart(b: Board, r: int, c: int, color: Color)
    requires InBounds(r, c) && ClearExcept(b, r, c) && b[r][c] == Some((color, Pawn))
    requires InBounds(r + Forward(color), c) && r != StartRow(color)
    ensures PieceMoves(b, r, c) == [Move((r, c), (r + Forward(color), c))]
  {
    PawnOnClearBoard(b, r, c, color);
  }
}
