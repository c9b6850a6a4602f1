/** What the move generators guarantee: every move starts on the mover's square and ends
    on another square of the board that holds no friendly piece; the pawn, knight and king
    rules exactly; sliding walks stop at the first piece; exact counts on an empty board;
    and the side-wide list is exactly the per-piece lists of that side's pieces. */
module MoveRules {
  import opened Board
  import opened MoveGen

  /** `m` is a move of a piece of `color` standing on (r, c): it starts there and ends on
      another square of the board that does not hold a piece of the same side. */
  predicate Lands(b: Board, r: int, c: int, color: Color, m: Move) {
    m.src == (r, c) && InBounds(m.dst.0, m.dst.1) && m.dst != (r, c)
    && !IsFriend(b, m.dst.0, m.dst.1, color)
  }

  // ---------------------------------------------------------------- pawns

  lemma PawnCapturesBoth(b: Board, r: int, c: int, color: Color)
    ensures PawnCaptures(b, r, c, color, |PawnCaptureCols|)
         == PawnCapture(b, r, c, color, -1) + PawnCapture(b, r, c, color, 1)
  {
    assert PawnCaptures(b, r, c, color, 1) == PawnCapture(b, r, c, color, -1);
  }

  /** The pawn rule: a forward step needs an empty target; the double step is offered only
      from the start row with both squares empty; a diagonal step only onto an enemy. */
  lemma PawnMovesExactly(b: Board, r: int, c: int, color: Color, m: Move)
    requires InBounds(r, c)
    ensures m in PawnMoves(b, r, c, color) <==>
      m.src == (r, c) &&
      ( (m.dst == (r + Forward(color), c) && IsEmpty(b, r + Forward(color), c))
      || (m.dst == (r + 2 * Forward(color), c) && r == StartRow(color)
          && IsEmpty(b, r + Forward(color), c) && IsEmpty(b, r + 2 * Forward(color), c))
      || ((m.dst == (r + Forward(color), c - 1) || m.dst == (r + Forward(color), c + 1))
          && IsEnemy(b, m.dst.0, m.dst.1, color)))
  {
    PawnCapturesBoth(b, r, c, color);
  }

  lemma PawnMovesLand(b: Board, r: int, c: int, color: Color)
    requires InBounds(r, c)
    ensures forall m :: m in PawnMoves(b, r, c, color) ==> Lands(b, r, c, color, m)
  {
    forall m | m in PawnMoves(b, r, c, color)
      ensures Lands(b, r, c, color, m)
    {
      PawnMovesExactly(b, r, c, color, m);
    }
  }

  /** A pawn alone on the board has only its forward moves: two from its start row,
      one from any other row with a square ahead. */
  lemma PawnOnClearBoard(b: Board, r: int, c: int, color: Color)
    requires InBounds(r, c) && ClearExcept(b, r, c) && InBounds(r + Forward(color), c)
    ensures PawnMoves(b, r, c, color)
         == [Move((r, c), (r + Forward(color), c))]
            + (if r == StartRow(color) then [Move((r, c), (r + 2 * Forward(color), c))] else [])
  {
    PawnCapturesBoth(b, r, c, color);
  }

  // ---------------------------------------------------------------- knights

  /** A move is among the jumps by the first `n` offsets exactly when its offset is one of
      them and it lands on the board, off a friendly piece. */
  lemma {:induction false} HopsExactly(b: Board, r: int, c: int, color: Color, offs: seq<(int, int)>, n: nat, m: Move)
    requires n <= |offs|
    ensures m in Hops(b, r, c, color, offs, n) <==>
      m.src == (r, c) && (exists i :: 0 <= i < n && offs[i] == (m.dst.0 - r, m.dst.1 - c))
      && InBounds(m.dst.0, m.dst.1) && !IsFriend(b, m.dst.0, m.dst.1, color)
  {
    if n > 0 {
      HopsExactly(b, r, c, color, offs, n - 1, m);
    }
  }

  /** The knight rule: the eight (1, 2) jumps that stay on the board and do not land on a
      friendly piece. */
  lemma KnightMovesExactly(b: Board, r: int, c: int, color: Color, m: Move)
    ensures m in KnightMoves(b, r, c, color) <==>
      m.src == (r, c) && (m.dst.0 - r, m.dst.1 - c) in KnightOffsets
      && InBounds(m.dst.0, m.dst.1) && !IsFriend(b, m.dst.0, m.dst.1, color)
  {
    HopsExactly(b, r, c, color, KnightOffsets, |KnightOffsets|, m);
  }

  lemma KnightMovesLand(b: Board, r: int, c: int, color: Color)
    ensures forall m :: m in KnightMoves(b, r, c, color) ==> Lands(b, r, c, color, m)
  {
    forall m | m in KnightMoves(b, r, c, color)
      ensures Lands(b, r, c, color, m)
    {
      KnightMovesExactly(b, r, c, color, m);
    }
  }

  /** How many of the first `n` offsets of `offs` lead from (r, c) to a square of the board. */
  function OffsetsOnBoard(r: int, c: int, offs: seq<(int, int)>, n: nat): nat
    requires n <= |offs|
  {
    if n == 0 then 0
    else OffsetsOnBoard(r, c, offs, n - 1) + (if InBounds(r + offs[n - 1].0, c + offs[n - 1].1) then 1 else 0)
  }

  /** On a board holding nothing but the jumping piece, each offset that stays on the
      board yields one move. */
  lemma {:induction false} HopsCount(b: Board, r: int, c: int, color: Color, offs: seq<(int, int)>, n: nat)
    requires n <= |offs| && ClearExcept(b, r, c) && (0, 0) !in offs
    ensures |Hops(b, r, c, color, offs, n)| == OffsetsOnBoard(r, c, offs, n)
  {
    if n > 0 {
      assert offs[n - 1] in offs;
      HopsCount(b, r, c, color, offs, n - 1);
    }
  }

  lemma KnightHopsInCentre(b: Board, color: Color)
    requires ClearExcept(b, 4, 4)
    ensures |KnightMoves(b, 4, 4, color)| == 8
  {
    HopsCount(b, 4, 4, color, KnightOffsets, |KnightOffsets|);
    for i := 0 to |KnightOffsets|
      invariant OffsetsOnBoard(4, 4, KnightOffsets, i) == i
    {
    }
  }

  lemma KnightHopsInCorner(b: Board, color: Color)
    requires ClearExcept(b, 0, 0)
    ensures |KnightMoves(b, 0, 0, color)| == 2
  {
    HopsCount(b, 0, 0, color, KnightOffsets, |KnightOffsets|);
    for i := 0 to |KnightOffsets|
      invariant OffsetsOnBoard(0, 0, KnightOffsets, i) == if i <= 5 then 0 else if i <= 7 then 1 else 2
    {
    }
  }

  /** A knight alone on the board has exactly 8 moves in the centre at (4, 4). */
  lemma KnightInCentre(b: Board, color: Color)
    requires ClearExcept(b, 4, 4) && b[4][4] == Some((color, Knight))
    ensures |PieceMoves(b, 4, 4)| == 8
  {
    assert PieceMoves(b, 4, 4) == KnightMoves(b, 4, 4, color);
    KnightHopsInCentre(b, color);
  }

  /** A knight alone on the board has exactly 2 moves in the corner (0, 0). */
  lemma KnightInCorner(b: Board, color: Color)
    requires ClearExcept(b, 0, 0) && b[0][0] == Some((color, Knight))
    ensures |PieceMoves(b, 0, 0)| == 2
  {
    assert PieceMoves(b, 0, 0) == KnightMoves(b, 0, 0, color);
    KnightHopsInCorner(b, color);
  }

  // ---------------------------------------------------------------- kings

  lemma {:induction false} KingRowExactly(b: Board, r: int, c: int, color: Color, dr: int, n: nat, m: Move)
    ensures m in KingRow(b, r, c, color, dr, n) <==>
      m.src == (r, c) && m.dst.0 == r + dr && -1 <= m.dst.1 - c < n - 1 && (dr != 0 || m.dst.1 != c)
      && InBounds(m.dst.0, m.dst.1) && !IsFriend(b, m.dst.0, m.dst.1, color)
  {
    if n > 0 {
      KingRowExactly(b, r, c, color, dr, n - 1, m);
    }
  }

  lemma {:induction false} KingRowsExactly(b: Board, r: int, c: int, color: Color, n: nat, m: Move)
    ensures m in KingRows(b, r, c, color, n) <==>
      m.src == (r, c) && -1 <= m.dst.0 - r < n - 1 && -1 <= m.dst.1 - c <= 1 && m.dst != (r, c)
      && InBounds(m.dst.0, m.dst.1) && !IsFriend(b, m.dst.0, m.dst.1, color)
  {
    if n > 0 {
      KingRowsExactly(b, r, c, color, n - 1, m);
      KingRowExactly(b, r, c, color, n - 2, 3, m);
    }
  }

  /** The king rule: the eight neighbouring squares on the board that do not hold a
      friendly piece; the king's own square is never a destination. */
  lemma KingMovesExactly(b: Board, r: int, c: int, color: Color, m: Move)
    ensures m in KingMoves(b, r, c, color) <==>
      m.src == (r, c) && -1 <= m.dst.0 - r <= 1 && -1 <= m.dst.1 - c <= 1 && m.dst != (r, c)
      && InBounds(m.dst.0, m.dst.1) && !IsFriend(b, m.dst.0, m.dst.1, color)
  {
    KingRowsExactly(b, r, c, color, 3, m);
  }

  lemma KingMovesLand(b: Board, r: int, c: int, color: Color)
    ensures forall m :: m in KingMoves(b, r, c, color) ==> Lands(b, r, c, color, m)
  {
    forall m | m in KingMoves(b, r, c, color)
      ensures Lands(b, r, c, color, m)
    {
      KingMovesExactly(b, r, c, color, m);
    }
  }

  lemma KingRowInOrder(b: Board, r: int, c: int, color: Color, dr: int)
    ensures KingRow(b, r, c, color, dr, 3)
         == KingStep(b, r, c, color, dr, -1) + KingStep(b, r, c, color, dr, 0) + KingStep(b, r, c, color, dr, 1)
  {
    assert KingRow(b, r, c, color, dr, 1) == KingStep(b, r, c, color, dr, -1);
    assert KingRow(b, r, c, color, dr, 2) == KingRow(b, r, c, color, dr, 1) + KingStep(b, r, c, color, dr, 0);
  }

  /** The king tries the rows above, level with and below it in that order, and within
      each row the columns to the left, in line and to the right. */
  lemma KingMovesInOrder(b: Board, r: int, c: int, color: Color)
    ensures KingMoves(b, r, c, color)
         == KingRow(b, r, c, color, -1, 3) + KingRow(b, r, c, color, 0, 3) + KingRow(b, r, c, color, 1, 3)
  {
    assert KingRows(b, r, c, color, 1) == KingRow(b, r, c, color, -1, 3);
    assert KingRows(b, r, c, color, 2) == KingRows(b, r, c, color, 1) + KingRow(b, r, c, color, 0, 3);
  }

  /** How many of the nine steps a king alone on the board keeps. */
  lemma KingCount(b: Board, r: int, c: int, color: Color)
    ensures |KingMoves(b, r, c, color)|
         == |KingStep(b, r, c, color, -1, -1)| + |KingStep(b, r, c, color, -1, 0)| + |KingStep(b, r, c, color, -1, 1)|
          + |KingStep(b, r, c, color, 0, -1)| + |KingStep(b, r, c, color, 0, 1)|
          + |KingStep(b, r, c, color, 1, -1)| + |KingStep(b, r, c, color, 1, 0)| + |KingStep(b, r, c, color, 1, 1)|
  {
    KingMovesInOrder(b, r, c, color);
    KingRowInOrder(b, r, c, color, -1);
    KingRowInOrder(b, r, c, color, 0);
    KingRowInOrder(b, r, c, color, 1);
  }

  /** A king alone on the board has 8 moves at (4, 4) and 3 in the corner (0, 0). */
  lemma KingInCentre(b: Board, color: Color)
    requires ClearExcept(b, 4, 4) && b[4][4] == Some((color, King))
    ensures |PieceMoves(b, 4, 4)| == 8
  {
    assert PieceMoves(b, 4, 4) == KingMoves(b, 4, 4, color);
    KingCount(b, 4, 4, color);
  }

  lemma KingInCorner(b: Board, color: Color)
    requires ClearExcept(b, 0, 0) && b[0][0] == Some((color, King))
    ensures |PieceMoves(b, 0, 0)| == 3
  {
    assert PieceMoves(b, 0, 0) == KingMoves(b, 0, 0, color);
    KingCount(b, 0, 0, color);
  }

  // ---------------------------------------------------------------- sliding walks

  /** A unit direction: one of the eight steps to a neighbouring square. */
  predicate IsUnit(d: (int, int)) {
    -1 <= d.0 <= 1 && -1 <= d.1 <= 1 && d != (0, 0)
  }

  /** Coordinate `x` moved `k` unit steps in direction `d`. */
  function Along(x: int, d: int, k: int): int {
    if d > 0 then x + k else if d < 0 then x - k else x
  }

  /** The square `k` steps along `d` from (nr, nc). */
  function At(nr: int, nc: int, d: (int, int), k: int): Square {
    (Along(nr, d.0, k), Along(nc, d.1, k))
  }

  /** One step further along the walk is one index further along the direction. */
  lemma AtShift(nr: int, nc: int, d: (int, int), k: int)
    requires IsUnit(d)
    ensures At(nr + d.0, nc + d.1, d, k) == At(nr, nc, d, k + 1)
  {
  }

  /** The k-th move of a walk goes to the k-th square along its direction, which is on
      the board and does not hold a friendly piece. */
  lemma {:induction false} RaySquares(b: Board, r: int, c: int, color: Color, d: (int, int), nr: int, nc: int)
    requires IsUnit(d)
    decreases Reach(nr, d.0) + Reach(nc, d.1)
    ensures var ray := Ray(b, r, c, color, d, nr, nc);
      forall k :: 0 <= k < |ray| ==>
        ray[k] == Move((r, c), At(nr, nc, d, k))
        && InBounds(At(nr, nc, d, k).0, At(nr, nc, d, k).1)
        && !IsFriend(b, At(nr, nc, d, k).0, At(nr, nc, d, k).1, color)
  {
    var ray := Ray(b, r, c, color, d, nr, nc);
    assert At(nr, nc, d, 0) == (nr, nc);
    if InBounds(nr, nc) && b[nr][nc].None? {
      var nr', nc' := nr + d.0, nc + d.1;
      var rest := Ray(b, r, c, color, d, nr', nc');
      assert ray == [Move((r, c), (nr, nc))] + rest;
      RaySquares(b, r, c, color, d, nr', nc');
      forall k | 1 <= k < |ray|
        ensures ray[k] == Move((r, c), At(nr, nc, d, k))
        ensures InBounds(At(nr, nc, d, k).0, At(nr, nc, d, k).1)
        ensures !IsFriend(b, At(nr, nc, d, k).0, At(nr, nc, d, k).1, color)
      {
        assert ray[k] == rest[k - 1];
        AtShift(nr, nc, d, k - 1);
      }
    }
  }

  /** Every square a walk records before its last one is empty. */
  lemma {:induction false} RayPassesEmpty(b: Board, r: int, c: int, color: Color, d: (int, int), nr: int, nc: int)
    requires IsUnit(d)
    decreases Reach(nr, d.0) + Reach(nc, d.1)
    ensures forall k :: 0 <= k < |Ray(b, r, c, color, d, nr, nc)| - 1 ==>
      IsEmpty(b, At(nr, nc, d, k).0, At(nr, nc, d, k).1)
  {
    var ray := Ray(b, r, c, color, d, nr, nc);
    assert At(nr, nc, d, 0) == (nr, nc);
    if InBounds(nr, nc) && b[nr][nc].None? {
      var nr', nc' := nr + d.0, nc + d.1;
      var rest := Ray(b, r, c, color, d, nr', nc');
      assert |ray| == 1 + |rest|;
      RayPassesEmpty(b, r, c, color, d, nr', nc');
      forall k | 1 <= k < |ray| - 1
        ensures IsEmpty(b, At(nr, nc, d, k).0, At(nr, nc, d, k).1)
      {
        AtShift(nr, nc, d, k - 1);
      }
    } else {
      assert |ray| <= 1;
    }
  }

  /** The walk from (nr, nc) ends properly: after recording an enemy, or because the next
      square along the direction is off the board or holds a friend. */
  predicate EndsProperly(b: Board, r: int, c: int, color: Color, d: (int, int), nr: int, nc: int)
    requires d != (0, 0)
  {
    var n := |Ray(b, r, c, color, d, nr, nc)|;
    (n > 0 && IsEnemy(b, At(nr, nc, d, n - 1).0, At(nr, nc, d, n - 1).1, color))
    || !InBounds(At(nr, nc, d, n).0, At(nr, nc, d, n).1)
    || IsFriend(b, At(nr, nc, d, n).0, At(nr, nc, d, n).1, color)
  }

  lemma EndsProperlyStep(b: Board, r: int, c: int, color: Color, d: (int, int), nr: int, nc: int)
    requires IsUnit(d) && InBounds(nr, nc) && b[nr][nc].None?
    requires EndsProperly(b, r, c, color, d, nr + d.0, nc + d.1)
    ensures EndsProperly(b, r, c, color, d, nr, nc)
  {
    var n := |Ray(b, r, c, color, d, nr + d.0, nc + d.1)|;
    assert |Ray(b, r, c, color, d, nr, nc)| == n + 1;
    AtShift(nr, nc, d, n);
    AtShift(nr, nc, d, n - 1);
    assert n == 0 ==> At(nr, nc, d, 0) == (nr, nc);
  }

  /** A walk ends at its first occupied square: it stops after recording an enemy, or
      because the next square is off the board or holds a friend. */
  lemma {:induction false} RayStops(b: Board, r: int, c: int, color: Color, d: (int, int), nr: int, nc: int)
    requires IsUnit(d)
    decreases Reach(nr, d.0) + Reach(nc, d.1)
    ensures EndsProperly(b, r, c, color, d, nr, nc)
  {
    assert At(nr, nc, d, 0) == (nr, nc);
    if InBounds(nr, nc) && b[nr][nc].None? {
      RayStops(b, r, c, color, d, nr + d.0, nc + d.1);
      EndsProperlyStep(b, r, c, color, d, nr, nc);
    }
  }

  /** A recorded square can only be reached across empty squares: everything strictly
      between the slider's first step and the k-th recorded square is empty. */
  lemma RayPathIsEmpty(b: Board, r: int, c: int, color: Color, d: (int, int), k: nat, j: nat)
    requires IsUnit(d)
    requires j < k < |Ray(b, r, c, color, d, r + d.0, c + d.1)|
    ensures Ray(b, r, c, color, d, r + d.0, c + d.1)[k].dst == At(r + d.0, c + d.1, d, k)
    ensures IsEmpty(b, At(r + d.0, c + d.1, d, j).0, At(r + d.0, c + d.1, d, j).1)
  {
    RaySquares(b, r, c, color, d, r + d.0, c + d.1);
    RayPassesEmpty(b, r, c, color, d, r + d.0, c + d.1);
  }

  /** `nx` lies on the side of `x` that a walk with step `d` moves towards. */
  predicate Ahead(x: int, nx: int, d: int) {
    if d > 0 then nx > x else if d < 0 then nx < x else nx == x
  }

  lemma {:induction false} RayLands(b: Board, r: int, c: int, color: Color, d: (int, int), nr: int, nc: int)
    requires d != (0, 0) && Ahead(r, nr, d.0) && Ahead(c, nc, d.1)
    decreases Reach(nr, d.0) + Reach(nc, d.1)
    ensures forall m :: m in Ray(b, r, c, color, d, nr, nc) ==> Lands(b, r, c, color, m)
  {
    if InBounds(nr, nc) && b[nr][nc].None? {
      RayLands(b, r, c, color, d, nr + d.0, nc + d.1);
    }
  }

  function Min(a: int, b: int): int {
    if a <= b then a else b
  }

  /** With nothing in the way, a walk covers every square up to the edge of the board. */
  lemma {:induction false} RayOnClearBoard(b: Board, r: int, c: int, color: Color, d: (int, int), nr: int, nc: int)
    requires IsUnit(d) && ClearExcept(b, r, c) && Ahead(r, nr, d.0) && Ahead(c, nc, d.1)
    decreases Reach(nr, d.0) + Reach(nc, d.1)
    ensures |Ray(b, r, c, color, d, nr, nc)|
         == if InBounds(nr, nc) then Min(Reach(nr, d.0), Reach(nc, d.1)) else 0
  {
    if InBounds(nr, nc) {
      assert b[nr][nc].None?;
      RayOnClearBoard(b, r, c, color, d, nr + d.0, nc + d.1);
    }
  }

  lemma {:induction false} SlidesLand(b: Board, r: int, c: int, color: Color, dirs: seq<(int, int)>)
    requires Steps(dirs)
    decreases |dirs|
    ensures forall m :: m in Slides(b, r, c, color, dirs) ==> Lands(b, r, c, color, m)
  {
    if dirs != [] {
      var d := dirs[|dirs| - 1];
      SlidesLand(b, r, c, color, dirs[..|dirs| - 1]);
      RayLands(b, r, c, color, d, r + d.0, c + d.1);
    }
  }

  /** `m` is recorded by the walk in one of the directions `dirs`. */
  predicate OnSomeWalk(b: Board, r: int, c: int, color: Color, dirs: seq<(int, int)>, m: Move)
    requires Steps(dirs)
  {
    exists i :: 0 <= i < |dirs| && m in Ray(b, r, c, color, dirs[i], r + dirs[i].0, c + dirs[i].1)
  }

  lemma OnSomeWalkShrinks(b: Board, r: int, c: int, color: Color, dirs: seq<(int, int)>, m: Move)
    requires Steps(dirs) && dirs != [] && OnSomeWalk(b, r, c, color, dirs, m)
    ensures var n := |dirs| - 1; var d := dirs[n];
      OnSomeWalk(b, r, c, color, dirs[..n], m) || m in Ray(b, r, c, color, d, r + d.0, c + d.1)
  {
    var n := |dirs| - 1;
    var i :| 0 <= i < |dirs| && m in Ray(b, r, c, color, dirs[i], r + dirs[i].0, c + dirs[i].1);
    if i < n {
      assert dirs[..n][i] == dirs[i];
    }
  }

  lemma OnSomeWalkGrows(b: Board, r: int, c: int, color: Color, dirs: seq<(int, int)>, m: Move)
    requires Steps(dirs) && dirs != [] && OnSomeWalk(b, r, c, color, dirs[..|dirs| - 1], m)
    ensures OnSomeWalk(b, r, c, color, dirs, m)
  {
    var init := dirs[..|dirs| - 1];
    var i :| 0 <= i < |init| && m in Ray(b, r, c, color, init[i], r + init[i].0, c + init[i].1);
    assert init[i] == dirs[i];
  }

  lemma OnSomeWalkSplit(b: Board, r: int, c: int, color: Color, dirs: seq<(int, int)>, m: Move)
    requires Steps(dirs) && dirs != []
    ensures var n := |dirs| - 1; var d := dirs[n];
      OnSomeWalk(b, r, c, color, dirs, m)
      <==> OnSomeWalk(b, r, c, color, dirs[..n], m) || m in Ray(b, r, c, color, d, r + d.0, c + d.1)
  {
    var n := |dirs| - 1;
    if OnSomeWalk(b, r, c, color, dirs, m) {
      OnSomeWalkShrinks(b, r, c, color, dirs, m);
    }
    if OnSomeWalk(b, r, c, color, dirs[..n], m) {
      OnSomeWalkGrows(b, r, c, color, dirs, m);
    }
  }

  /** A slider's moves are exactly the union of its walks, one per direction. */
  lemma {:induction false} SlidesExactly(b: Board, r: int, c: int, color: Color, dirs: seq<(int, int)>, m: Move)
    requires Steps(dirs)
    decreases |dirs|
    ensures m in Slides(b, r, c, color, dirs) <==> OnSomeWalk(b, r, c, color, dirs, m)
  {
    if dirs != [] {
      var n := |dirs| - 1;
      SlidesExactly(b, r, c, color, dirs[..n], m);
      OnSomeWalkSplit(b, r, c, color, dirs, m);
    }
  }

  lemma {:induction false} SlidesAppend(b: Board, r: int, c: int, color: Color, xs: seq<(int, int)>, ys: seq<(int, int)>)
    requires Steps(xs) && Steps(ys)
    decreases |ys|
    ensures Steps(xs + ys)
    ensures Slides(b, r, c, color, xs + ys) == Slides(b, r, c, color, xs) + Slides(b, r, c, color, ys)
  {
    if ys == [] {
      assert xs + ys == xs;
    } else {
      var init, d := ys[..|ys| - 1], ys[|ys| - 1];
      SlidesAppend(b, r, c, color, xs, init);
      assert (xs + ys)[..|xs + ys| - 1] == xs + init;
      assert (xs + ys)[|xs + ys| - 1] == d;
      var ray := Ray(b, r, c, color, d, r + d.0, c + d.1);
      assert Slides(b, r, c, color, xs + ys) == Slides(b, r, c, color, xs + init) + ray;
      ConcatAssoc(Slides(b, r, c, color, xs), Slides(b, r, c, color, init), ray);
    }
  }

  /** Number of diagonal squares a bishop on (r, c) sees on an empty board. */
  function DiagonalReach(r: int, c: int): int {
    Min(r, c) + Min(r, 7 - c) + Min(7 - r, c) + Min(7 - r, 7 - c)
  }

  /** How many squares the walk from (r, c) in unit direction `d` covers on an otherwise
      empty board. */
  function ClearRayLength(r: int, c: int, d: (int, int)): int {
    var nr, nc := r + d.0, c + d.1;
    if InBounds(nr, nc) then Min(Reach(nr, d.0), Reach(nc, d.1)) else 0
  }

  lemma ClearRay(b: Board, r: int, c: int, color: Color, d: (int, int))
    requires IsUnit(d) && ClearExcept(b, r, c)
    ensures |Ray(b, r, c, color, d, r + d.0, c + d.1)| == ClearRayLength(r, c, d)
  {
    RayOnClearBoard(b, r, c, color, d, r + d.0, c + d.1);
  }

  /** Total length of the walks in `dirs` on an otherwise empty board. */
  function ClearRaysLength(r: int, c: int, dirs: seq<(int, int)>): int
    decreases |dirs|
  {
    if dirs == [] then 0
    else ClearRaysLength(r, c, dirs[..|dirs| - 1]) + ClearRayLength(r, c, dirs[|dirs| - 1])
  }

  lemma {:induction false} SlidesOnClearBoard(b: Board, r: int, c: int, color: Color, dirs: seq<(int, int)>)
    requires ClearExcept(b, r, c) && Steps(dirs) && forall i :: 0 <= i < |dirs| ==> IsUnit(dirs[i])
    decreases |dirs|
    ensures |Slides(b, r, c, color, dirs)| == ClearRaysLength(r, c, dirs)
  {
    if dirs != [] {
      SlidesOnClearBoard(b, r, c, color, dirs[..|dirs| - 1]);
      ClearRay(b, r, c, color, dirs[|dirs| - 1]);
    }
  }

  lemma ClearRaysOfFour(r: int, c: int, dirs: seq<(int, int)>)
    requires |dirs| == 4
    ensures ClearRaysLength(r, c, dirs)
         == ClearRayLength(r, c, dirs[0]) + ClearRayLength(r, c, dirs[1])
          + ClearRayLength(r, c, dirs[2]) + ClearRayLength(r, c, dirs[3])
  {
    var p3, p2, p1 := dirs[..3], dirs[..2], dirs[..1];
    assert p3[..2] == p2 && p2[..1] == p1 && p1[..0] == [];
    assert ClearRaysLength(r, c, p1) == ClearRayLength(r, c, dirs[0]);
    assert ClearRaysLength(r, c, p2) == ClearRaysLength(r, c, p1) + ClearRayLength(r, c, dirs[1]);
    assert ClearRaysLength(r, c, p3) == ClearRaysLength(r, c, p2) + ClearRayLength(r, c, dirs[2]);
  }

  lemma RookRays(b: Board, r: int, c: int, color: Color)
    requires InBounds(r, c) && ClearExcept(b, r, c)
    ensures |Slides(b, r, c, color, RookDirs)| == 14
  {
    SlidesOnClearBoard(b, r, c, color, RookDirs);
    ClearRaysOfFour(r, c, RookDirs);
  }

  lemma BishopRays(b: Board, r: int, c: int, color: Color)
    requires InBounds(r, c) && ClearExcept(b, r, c)
    ensures |Slides(b, r, c, color, BishopDirs)| == DiagonalReach(r, c)
  {
    SlidesOnClearBoard(b, r, c, color, BishopDirs);
    ClearRaysOfFour(r, c, BishopDirs);
    assert ClearRayLength(r, c, (-1, -1)) == Min(r, c);
    assert ClearRayLength(r, c, (-1, 1)) == Min(r, 7 - c);
    assert ClearRayLength(r, c, (1, -1)) == Min(7 - r, c);
    assert ClearRayLength(r, c, (1, 1)) == Min(7 - r, 7 - c);
  }

  /** A rook alone on the board has 14 moves wherever it stands: the rest of its rank and
      the rest of its file. */
  lemma RookOnClearBoard(b: Board, r: int, c: int, color: Color)
    requires InBounds(r, c) && ClearExcept(b, r, c) && b[r][c] == Some((color, Rook))
    ensures |PieceMoves(b, r, c)| == 14
  {
    RookRays(b, r, c, color);
  }

  /** A bishop alone on the board has one move per square on its two diagonals. */
  lemma BishopOnClearBoard(b: Board, r: int, c: int, color: Color)
    requires InBounds(r, c) && ClearExcept(b, r, c) && b[r][c] == Some((color, Bishop))
    ensures |PieceMoves(b, r, c)| == DiagonalReach(r, c)
  {
    BishopRays(b, r, c, color);
  }

  /** A queen alone on the board has the bishop's and the rook's moves together. */
  lemma QueenOnClearBoard(b: Board, r: int, c: int, color: Color)
    requires InBounds(r, c) && ClearExcept(b, r, c) && b[r][c] == Some((color, Queen))
    ensures |PieceMoves(b, r, c)| == 14 + DiagonalReach(r, c)
  {
    assert QueenDirs == BishopDirs + RookDirs;
    SlidesAppend(b, r, c, color, BishopDirs, RookDirs);
    RookRays(b, r, c, color);
    BishopRays(b, r, c, color);
  }

  /** The rook in the corner (7, 0) of an otherwise empty board: 7 moves along its rank
      and 7 along its file. */
  lemma RookInCornerCount()
    ensures |PieceMoves(Lone(7, 0, (White, Rook)), 7, 0)| == 14
  {
    RookOnClearBoard(Lone(7, 0, (White, Rook)), 7, 0, White);
  }

  /** The knight and king counts on the boards holding nothing but that piece. */
  lemma LoneLeaperCounts(color: Color)
    ensures |PieceMoves(Lone(4, 4, (color, Knight)), 4, 4)| == 8
    ensures |PieceMoves(Lone(0, 0, (color, Knight)), 0, 0)| == 2
    ensures |PieceMoves(Lone(4, 4, (color, King)), 4, 4)| == 8
    ensures |PieceMoves(Lone(0, 0, (color, King)), 0, 0)| == 3
  {
    KnightInCentre(Lone(4, 4, (color, Knight)), color);
    KnightInCorner(Lone(0, 0, (color, Knight)), color);
    KingInCentre(Lone(4, 4, (color, King)), color);
    KingInCorner(Lone(0, 0, (color, King)), color);
  }

  // ---------------------------------------------------------------- per square and per side

  /** Whatever piece stands on (r, c), each of its moves lands legally for its side. */
  lemma PieceMovesLand(b: Board, r: int, c: int)
    requires InBounds(r, c) && b[r][c].Some?
    ensures forall m :: m in PieceMoves(b, r, c) ==> Lands(b, r, c, b[r][c].value.0, m)
  {
    var (color, kind) := b[r][c].value;
    match kind
    case Pawn => PawnMovesLand(b, r, c, color);
    case Knight => KnightMovesLand(b, r, c, color);
    case Bishop => SlidesLand(b, r, c, color, BishopDirs);
    case Rook => SlidesLand(b, r, c, color, RookDirs);
    case Queen => SlidesLand(b, r, c, color, QueenDirs);
    case King => KingMovesLand(b, r, c, color);
  }

  /** The moves of one square start on that square, and are those of its piece when that
      piece belongs to `color`. */
  lemma SquareMovesExactly(b: Board, color: Color, r: int, c: int, m: Move)
    requires InBounds(r, c)
    ensures m in SquareMoves(b, color, r, c) ==> m.src == (r, c)
    ensures m in SquareMoves(b, color, r, c) <==> IsFriend(b, r, c, color) && m in PieceMoves(b, r, c)
  {
    if b[r][c].Some? {
      PieceMovesLand(b, r, c);
    }
  }

  lemma SquareMovesFrom(b: Board, color: Color, r: int, c: int, m: Move)
    requires InBounds(r, c) && m in SquareMoves(b, color, r, c)
    ensures m.src == (r, c)
  {
    SquareMovesExactly(b, color, r, c, m);
  }

  /** The moves of the first `n` squares of row `r` are exactly the moves listed for
      those squares. */
  lemma {:induction false} RowMovesExactly(b: Board, color: Color, r: int, n: nat, m: Move)
    requires 0 <= r < Rows && n <= Cols
    ensures m in RowMoves(b, color, r, n) <==>
      m.src.0 == r && 0 <= m.src.1 < n && m in SquareMoves(b, color, r, m.src.1)
  {
    if n > 0 {
      var c := n - 1;
      RowMovesExactly(b, color, r, c, m);
      assert RowMoves(b, color, r, n) == RowMoves(b, color, r, c) + SquareMoves(b, color, r, c);
      if m.src == (r, c) {
        assert m !in RowMoves(b, color, r, c);
      } else if m in SquareMoves(b, color, r, c) {
        SquareMovesFrom(b, color, r, c, m);
        assert false;
      }
    }
  }

  lemma {:induction false} BoardMovesExactly(b: Board, color: Color, n: nat, m: Move)
    requires n <= Rows
    ensures m in BoardMoves(b, color, n) <==>
      0 <= m.src.0 < n && 0 <= m.src.1 < Cols && m in SquareMoves(b, color, m.src.0, m.src.1)
  {
    if n > 0 {
      var r := n - 1;
      BoardMovesExactly(b, color, r, m);
      RowMovesExactly(b, color, r, Cols, m);
      assert BoardMoves(b, color, n) == BoardMoves(b, color, r) + RowMoves(b, color, r, Cols);
      if m.src.0 == r {
        assert m !in BoardMoves(b, color, r);
      } else {
        assert m !in RowMoves(b, color, r, Cols);
      }
    }
  }

  /** A side's move list holds exactly the moves of its own pieces: every source square
      holds a piece of the mover's colour, and every move of such a piece is listed. */
  lemma AllMovesExactly(b: Board, color: Color, m: Move)
    ensures m in AllMoves(b, color) <==>
      InBounds(m.src.0, m.src.1) && IsFriend(b, m.src.0, m.src.1, color)
      && m in PieceMoves(b, m.src.0, m.src.1)
  {
    BoardMovesExactly(b, color, Rows, m);
    if InBounds(m.src.0, m.src.1) {
      SquareMovesExactly(b, color, m.src.0, m.src.1, m);
    }
  }

  /** Every listed move starts on a piece of the mover and lands on another square of the
      board that does not hold a piece of the mover. */
  lemma AllMovesLand(b: Board, color: Color)
    ensures forall m :: m in AllMoves(b, color) ==>
      IsFriend(b, m.src.0, m.src.1, color) && Lands(b, m.src.0, m.src.1, color, m)
  {
    forall m | m in AllMoves(b, color)
      ensures IsFriend(b, m.src.0, m.src.1, color) && Lands(b, m.src.0, m.src.1, color, m)
    {
      AllMovesExactly(b, color, m);
      PieceMovesLand(b, m.src.0, m.src.1);
    }
  }

  /** A side has no move exactly when none of its pieces has one. */
  lemma NoMovesMeansAllStuck(b: Board, color: Color)
    ensures AllMoves(b, color) == [] <==>
      forall r, c :: InBounds(r, c) && IsFriend(b, r, c, color) ==> PieceMoves(b, r, c) == []
  {
    if AllMoves(b, color) != [] {
      var m := AllMoves(b, color)[0];
      AllMovesExactly(b, color, m);
      assert PieceMoves(b, m.src.0, m.src.1) != [];
    } else {
      forall r, c | InBounds(r, c) && IsFriend(b, r, c, color)
        ensures PieceMoves(b, r, c) == []
      {
        if PieceMoves(b, r, c) != [] {
          var m := PieceMoves(b, r, c)[0];
          assert m in PieceMoves(b, r, c);
          PieceMovesLand(b, r, c);
          assert Lands(b, r, c, color, m);
          AllMovesExactly(b, color, m);
          assert false;
        }
      }
    }
  }

  /** A side without a piece on the board has no move. */
  lemma NoPiecesNoMoves(b: Board, color: Color)
    requires forall r, c :: InBounds(r, c) ==> !IsFriend(b, r, c, color)
    ensures AllMoves(b, color) == []
  {
    NoMovesMeansAllStuck(b, color);
  }

  /** A pawn with an empty square ahead can step onto it, as part of its side's list. */
  lemma PawnAdvanceListed(b: Board, r: int, c: int, color: Color)
    requires InBounds(r, c) && b[r][c] == Some((color, Pawn)) && IsEmpty(b, r + Forward(color), c)
    ensures Move((r, c), (r + Forward(color), c)) in AllMoves(b, color)
  {
    var m := Move((r, c), (r + Forward(color), c));
    PawnMovesExactly(b, r, c, color, m);
    AllMovesExactly(b, color, m);
  }

  /** At the start each side can advance its leftmost pawn one square. */
  lemma InitialBoardHasMoves()
    ensures Move((6, 0), (5, 0)) in AllMoves(InitialBoard(), White)
    ensures Move((1, 0), (2, 0)) in AllMoves(InitialBoard(), Black)
  {
    var b := InitialBoard();
    assert b[6][0] == Some((White, Pawn)) && b[5][0] == None;
    assert b[1][0] == Some((Black, Pawn)) && b[2][0] == None;
    PawnAdvanceListed(b, 6, 0, White);
    PawnAdvanceListed(b, 1, 0, Black);
  }
}
