/** The automated side: capture valuation, the greedy choice of the most valuable capture,
    and the end-of-game test. */
module Ai {
  import opened Board
  import opened MoveGen
  import opened MoveRules

  /** Worth of a piece when captured. */
  function PieceValue(k: Kind): (v: int)
    ensures 100 <= v <= 10000
  {
    match k
    case King => 10000
    case Queen => 900
    case Rook => 500
    case Bishop => 330
    case Knight => 320
    case Pawn => 100
  }

  /** The valuation ranks the kinds pawn < knight < bishop < rook < queen < king. */
  lemma PieceValuesOrdered()
    ensures PieceValue(Pawn) < PieceValue(Knight) < PieceValue(Bishop)
         < PieceValue(Rook) < PieceValue(Queen) < PieceValue(King)
  {
  }

  /** What a move captures: nothing for an empty destination, else the worth of the piece
      standing there. */
  function CapturedValue(b: Board, m: Move): (v: int)
    requires InBounds(m.dst.0, m.dst.1)
    ensures 0 <= v <= 10000
    ensures v == 0 <==> b[m.dst.0][m.dst.1].None?
    ensures b[m.dst.0][m.dst.1].Some? ==> v == PieceValue(b[m.dst.0][m.dst.1].value.1)
  {
    var target := b[m.dst.0][m.dst.1];
    if target.None? then 0 else PieceValue(target.value.1)
  }

  /** Every destination in `ms` is a square of the board. */
  predicate OnBoard(ms: seq<Move>) {
    forall i :: 0 <= i < |ms| ==> InBounds(ms[i].dst.0, ms[i].dst.1)
  }

  /** The highest captured value among `ms`, or -1 when there are none. */
  function BestValue(b: Board, ms: seq<Move>): int
    requires OnBoard(ms)
    decreases |ms|
  {
    if ms == [] then -1
    else
      var rest := BestValue(b, ms[..|ms| - 1]);
      var v := CapturedValue(b, ms[|ms| - 1]);
      if v > rest then v else rest
  }

  /** The moves of `ms` whose captured value is `v`, in their original order. */
  function Ties(b: Board, ms: seq<Move>, v: int): seq<Move>
    requires OnBoard(ms)
    decreases |ms|
  {
    if ms == [] then []
    else
      var rest := Ties(b, ms[..|ms| - 1], v);
      if CapturedValue(b, ms[|ms| - 1]) == v then rest + [ms[|ms| - 1]] else rest
  }

  /** The moves among which the automated side picks: those of greatest captured value. */
  function Candidates(b: Board, ms: seq<Move>): seq<Move>
    requires OnBoard(ms)
  {
    Ties(b, ms, BestValue(b, ms))
  }

  /** Every move of a side ends on the board. */
  lemma AllMovesOnBoard(b: Board, color: Color)
    ensures OnBoard(AllMoves(b, color))
  {
    var ms := AllMoves(b, color);
    AllMovesLand(b, color);
    forall i | 0 <= i < |ms|
      ensures InBounds(ms[i].dst.0, ms[i].dst.1)
    {
      assert ms[i] in ms;
    }
  }

  /** The best value bounds every move's value and is attained by one of them. */
  lemma {:induction false} BestValueIsMaximum(b: Board, ms: seq<Move>)
    requires OnBoard(ms)
    decreases |ms|
    ensures forall i :: 0 <= i < |ms| ==> CapturedValue(b, ms[i]) <= BestValue(b, ms)
    ensures ms == [] <==> BestValue(b, ms) == -1
    ensures ms != [] ==> exists i :: 0 <= i < |ms| && CapturedValue(b, ms[i]) == BestValue(b, ms)
  {
    if ms != [] {
      var n := |ms| - 1;
      var init := ms[..n];
      BestValueIsMaximum(b, init);
      forall i | 0 <= i < n
        ensures CapturedValue(b, ms[i]) <= BestValue(b, ms)
      {
        assert ms[i] == init[i];
      }
      if init != [] && BestValue(b, init) >= CapturedValue(b, ms[n]) {
        var i :| 0 <= i < |init| && CapturedValue(b, init[i]) == BestValue(b, init);
        assert ms[i] == init[i];
      }
    }
  }

  /** A move is a tie for `v` exactly when it is among `ms` and captures `v`. */
  lemma {:induction false} TiesExactly(b: Board, ms: seq<Move>, v: int, m: Move)
    requires OnBoard(ms)
    decreases |ms|
    ensures m in Ties(b, ms, v) <==> m in ms && InBounds(m.dst.0, m.dst.1) && CapturedValue(b, m) == v
  {
    if ms != [] {
      var n := |ms| - 1;
      TiesExactly(b, ms[..n], v, m);
      assert ms == ms[..n] + [ms[n]];
    }
  }

  /** Nothing ties for a value above the best one. */
  lemma {:induction false} TiesAboveBest(b: Board, ms: seq<Move>, v: int)
    requires OnBoard(ms) && v > BestValue(b, ms)
    decreases |ms|
    ensures Ties(b, ms, v) == []
  {
    if ms != [] {
      TiesAboveBest(b, ms[..|ms| - 1], v);
    }
  }

  /** When there is any move there is at least one candidate, and every candidate is one
      of the moves with a value no other move exceeds. */
  lemma CandidatesAreBest(b: Board, ms: seq<Move>)
    requires OnBoard(ms)
    ensures ms != [] <==> Candidates(b, ms) != []
    ensures forall m :: m in Candidates(b, ms) ==>
      m in ms && forall i :: 0 <= i < |ms| ==> CapturedValue(b, ms[i]) <= CapturedValue(b, m)
  {
    BestValueIsMaximum(b, ms);
    if ms != [] {
      var i :| 0 <= i < |ms| && CapturedValue(b, ms[i]) == BestValue(b, ms);
      TiesExactly(b, ms, BestValue(b, ms), ms[i]);
    }
    forall m | m in Candidates(b, ms)
      ensures m in ms && forall i :: 0 <= i < |ms| ==> CapturedValue(b, ms[i]) <= CapturedValue(b, m)
    {
      TiesExactly(b, ms, BestValue(b, ms), m);
    }
  }

  /** The greedy choice: when some move captures, every candidate captures. */
  lemma CapturePreferred(b: Board, ms: seq<Move>, k: nat)
    requires OnBoard(ms) && k < |ms| && b[ms[k].dst.0][ms[k].dst.1].Some?
    ensures forall m :: m in Candidates(b, ms) ==> InBounds(m.dst.0, m.dst.1) && b[m.dst.0][m.dst.1].Some?
  {
    CandidatesAreBest(b, ms);
    forall m | m in Candidates(b, ms)
      ensures InBounds(m.dst.0, m.dst.1) && b[m.dst.0][m.dst.1].Some?
    {
      assert CapturedValue(b, ms[k]) <= CapturedValue(b, m);
      assert InBounds(m.dst.0, m.dst.1);
    }
  }

  /** A value that no move of `ms` captures has no ties. */
  lemma NoTies(b: Board, ms: seq<Move>, v: int)
    requires OnBoard(ms) && forall i :: 0 <= i < |ms| ==> CapturedValue(b, ms[i]) != v
    ensures Ties(b, ms, v) == []
  {
    if Ties(b, ms, v) != [] {
      var m := Ties(b, ms, v)[0];
      TiesExactly(b, ms, v, m);
      assert false;
    }
  }

  /** When the move at index `k` is the only one capturing `v`, it is the only tie. */
  lemma {:induction false} SingleTie(b: Board, ms: seq<Move>, v: int, k: nat)
    requires OnBoard(ms) && k < |ms| && CapturedValue(b, ms[k]) == v
    requires forall i :: 0 <= i < |ms| && i != k ==> CapturedValue(b, ms[i]) != v
    decreases |ms|
    ensures Ties(b, ms, v) == [ms[k]]
  {
    var n := |ms| - 1;
    var init := ms[..n];
    assert forall i :: 0 <= i < n ==> init[i] == ms[i];
    if k == n {
      NoTies(b, init, v);
    } else {
      SingleTie(b, init, v, k);
    }
  }

  /** The greedy choice is forced when one move captures strictly more than every other
      one, for instance the only move onto a queen when the others take less: that move
      is the sole candidate. */
  lemma UniqueBestIsChosen(b: Board, ms: seq<Move>, k: nat)
    requires OnBoard(ms) && k < |ms|
    requires forall i :: 0 <= i < |ms| && i != k ==> CapturedValue(b, ms[i]) < CapturedValue(b, ms[k])
    ensures Candidates(b, ms) == [ms[k]]
  {
    BestValueIsMaximum(b, ms);
    var i :| 0 <= i < |ms| && CapturedValue(b, ms[i]) == BestValue(b, ms);
    assert i == k;
    SingleTie(b, ms, BestValue(b, ms), k);
  }

  /** Generates the side's moves, keeps those of greatest captured value in encounter
      order, and picks one. The uniform `random.choice` of `choose_ai_move` is the parameter
      `pick`, reduced modulo the number of candidates. */
  method ChooseAiMove(b: Board, color: Color, pick: nat) returns (choice: Option<Move>)
    ensures choice.None? <==> AllMoves(b, color) == []
    ensures choice.Some? ==>
      OnBoard(AllMoves(b, color)) && Candidates(b, AllMoves(b, color)) != []
      && choice.value == Candidates(b, AllMoves(b, color))[pick % |Candidates(b, AllMoves(b, color))|]
    ensures choice.Some? ==>
      choice.value in AllMoves(b, color) && InBounds(choice.value.dst.0, choice.value.dst.1)
      && forall m :: m in AllMoves(b, color) ==>
           InBounds(m.dst.0, m.dst.1) && CapturedValue(b, m) <= CapturedValue(b, choice.value)
  {
    var moves := GenerateMoves(b, color);
    if |moves| == 0 {
      return None;
    }
    AllMovesOnBoard(b, color);
    var bestValue := -1;
    var bestMoves: seq<Move> := [];
    for i := 0 to |moves|
      invariant OnBoard(moves[..i])
      invariant bestValue == BestValue(b, moves[..i])
      invariant bestMoves == Ties(b, moves[..i], bestValue)
    {
      var mv := moves[i];
      var value := CapturedValue(b, mv);
      assert moves[..i + 1][..i] == moves[..i];
      if value > bestValue {
        TiesAboveBest(b, moves[..i], value);
        bestValue := value;
        bestMoves := [mv];
      } else if value == bestValue {
        bestMoves := bestMoves + [mv];
      }
    }
    assert moves[..|moves|] == moves;
    CandidatesAreBest(b, moves);
    choice := Some(bestMoves[pick % |bestMoves|]);
    assert choice.value in Candidates(b, moves);
    AllMovesLand(b, color);
  }

  /** The game is over for `color` exactly when it has no move. */
  method NoMovesLeft(b: Board, color: Color) returns (over: bool)
    ensures over <==> AllMoves(b, color) == []
    ensures over <==> forall r, c :: InBounds(r, c) && IsFriend(b, r, c, color) ==> PieceMoves(b, r, c) == []
  {
    var moves := GenerateMoves(b, color);
    over := |moves| == 0;
    NoMovesMeansAllStuck(b, color);
  }
}
