/** Board state of the simplified chess engine: pieces, cells, squares, moves,
    the occupancy queries and the initial layout. */
module Board {

  datatype Option<+T> = None | Some(value: T)

  /** The two sides; White is the human side "w", Black the automated side "b". */
  datatype Color = White | Black

  datatype Kind = Pawn | Knight | Bishop | Rook | Queen | King

  type Piece = (Color, Kind)

  /** A cell is empty or holds one piece. */
  type Cell = Option<Piece>

  const Rows: int := 8
  const Cols: int := 8

  /** An 8x8 grid of cells, indexed by row then column. */
  type Board = b: seq<seq<Cell>> | |b| == Rows && forall i :: 0 <= i < Rows ==> |b[i]| == Cols
    witness seq(Rows, _ => seq(Cols, _ => None))

  /** A (row, column) pair; a move goes from `src` to `dst`. */
  type Square = (int, int)

  datatype Move = Move(src: Square, dst: Square)

  /** A square on the board; each one names a distinct cell of the row-major 64-cell grid. */
  function InBounds(r: int, c: int): (ok: bool)
    ensures ok ==> 0 <= r * Cols + c < Rows * Cols
  {
    0 <= r < Rows && 0 <= c < Cols
  }

  /** An empty square of the board; false off the board. */
  function IsEmpty(b: Board, r: int, c: int): (e: bool)
    ensures e ==> InBounds(r, c)
  {
    InBounds(r, c) && b[r][c].None?
  }

  /** A square holding a piece of the other side; false off the board and on empty squares. */
  function IsEnemy(b: Board, r: int, c: int, color: Color): (e: bool)
    ensures e ==> InBounds(r, c) && !IsEmpty(b, r, c)
  {
    InBounds(r, c) && b[r][c].Some? && b[r][c].value.0 != color
  }

  /** A square holding a piece of side `color`; never also an enemy square. */
  function IsFriend(b: Board, r: int, c: int, color: Color): (f: bool)
    ensures f ==> InBounds(r, c) && !IsEmpty(b, r, c) && !IsEnemy(b, r, c, color)
  {
    InBounds(r, c) && b[r][c].Some? && b[r][c].value.0 == color
  }

  /** The three occupancy queries are total: off the board they are all false, and on the
      board exactly one of them holds for a given side. */
  lemma OccupancyQueries(b: Board, r: int, c: int, color: Color)
    ensures !InBounds(r, c) ==> !IsEmpty(b, r, c) && !IsEnemy(b, r, c, color) && !IsFriend(b, r, c, color)
    ensures !(IsEnemy(b, r, c, color) && IsFriend(b, r, c, color))
    ensures InBounds(r, c) ==> IsEmpty(b, r, c) || IsEnemy(b, r, c, color) || IsFriend(b, r, c, color)
    ensures IsEmpty(b, r, c) ==> !IsEnemy(b, r, c, color) && !IsFriend(b, r, c, color)
  {
  }

  /** What is an enemy to one side is a friend to the other. */
  function Opponent(color: Color): (o: Color)
    ensures o != color
  {
    if color == White then Black else White
  }

  lemma EnemyIsOpponentsFriend(b: Board, r: int, c: int, color: Color)
    ensures IsEnemy(b, r, c, color) <==> IsFriend(b, r, c, Opponent(color))
  {
  }

  function EmptyBoard(): Board {
    seq(Rows, _ => seq(Cols, _ => None))
  }

  /** Two boards with the same cells are the same board. */
  lemma BoardsEqual(a: Board, b: Board)
    requires forall i, j :: 0 <= i < Rows && 0 <= j < Cols ==> a[i][j] == b[i][j]
    ensures a == b
  {
    forall i | 0 <= i < Rows
      ensures a[i] == b[i]
    {
    }
  }

  /** Back rank, left to right. */
  const BackRank: seq<Kind> := [Rook, Knight, Bishop, Queen, King, Bishop, Knight, Rook]

  /** The starting layout: White pawns on row 6 and pieces on row 7, Black pawns on row 1
      and pieces on row 0, everything else empty. */
  function InitialCell(r: int, c: int): Cell
    requires InBounds(r, c)
  {
    if r == 6 then Some((White, Pawn))
    else if r == 1 then Some((Black, Pawn))
    else if r == 7 then Some((White, BackRank[c]))
    else if r == 0 then Some((Black, BackRank[c]))
    else None
  }

  function InitialBoard(): Board {
    seq(Rows, (r: int) requires 0 <= r < Rows =>
      seq(Cols, (c: int) requires 0 <= c < Cols => InitialCell(r, c)))
  }

  /** Builds the starting board as `create_initial_board` does: an empty grid, then the pawns
      column by column, then the back ranks column by column. */
  method CreateInitialBoard() returns (b: Board)
    ensures b == InitialBoard()
  {
    b := EmptyBoard();
    for c := 0 to Cols
      invariant forall i, j :: 0 <= i < Rows && 0 <= j < Cols ==>
        b[i][j] == (if (i == 6 || i == 1) && j < c then InitialCell(i, j) else None)
    {
      b := b[6 := b[6][c := Some((White, Pawn))]];
      b := b[1 := b[1][c := Some((Black, Pawn))]];
    }
    for c := 0 to Cols
      invariant forall i, j :: 0 <= i < Rows && 0 <= j < Cols ==>
        b[i][j] == (if i == 6 || i == 1 || ((i == 7 || i == 0) && j < c) then InitialCell(i, j) else None)
    {
      b := b[7 := b[7][c := Some((White, BackRank[c]))]];
      b := b[0 := b[0][c := Some((Black, BackRank[c]))]];
    }
    BoardsEqual(b, InitialBoard());
  }

  /** The initial layout is mirror-symmetric: row r and row 7 - r hold the same kinds
      for opposite sides. */
  lemma InitialBoardMirrored(r: int, c: int)
    requires InBounds(r, c)
    ensures InitialBoard()[r][c].None? <==> InitialBoard()[7 - r][c].None?
    ensures InitialBoard()[r][c].Some? ==>
      InitialBoard()[7 - r][c] == Some((Opponent(InitialBoard()[r][c].value.0), InitialBoard()[r][c].value.1))
  {
  }

  /** A board whose only piece is `p` at (r, c): the setting of the exact-count properties. */
  function Lone(r: int, c: int, p: Piece): (b: Board)
    requires InBounds(r, c)
    ensures b[r][c] == Some(p)
    ensures ClearExcept(b, r, c)
  {
    seq(Rows, i => seq(Cols, j => if i == r && j == c then Some(p) else None))
  }

  /** Every cell other than (r, c) is empty. */
  predicate ClearExcept(b: Board, r: int, c: int) {
    forall i, j :: 0 <= i < Rows && 0 <= j < Cols && (i != r || j != c) ==> b[i][j].None?
  }
}
