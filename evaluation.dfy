/** GameView's static evaluation (evaluateBoard) and its Zobrist position
    key (getBoardHash). Scores are from black's side: black is the engine. */
module Evaluation {
  import opened Board
  import opened Moves
  import opened LegalMoves
  import opened BitXor

  /** KING_VALUE times 100: what a king is worth on top of its 100 points
      as a piece. */
  const KingBonus: int := 700
  /** The score of a decided game. */
  const WinScore: int := 100000

  // ------------------------------------------------------------ scoring

  /** The counters evaluateBoard keeps while it scans the board. */
  datatype Tally = Tally(whitePieces: int, blackPieces: int, whiteKings: int, blackKings: int, positional: int)

  /** One square of the scan: count the piece, and give a man its advancement
      bonus (black men on the two edge columns get 5 more). */
  function CellTally(t: Tally, piece: int, p: Pos): Tally
  {
    if piece == Empty then t
    else if IsWhitePiece(piece) then
      if IsKing(piece) then t.(whitePieces := t.whitePieces + 1, whiteKings := t.whiteKings + 1)
      else t.(whitePieces := t.whitePieces + 1, positional := t.positional - (7 - p.r))
    else
      if IsKing(piece) then t.(blackPieces := t.blackPieces + 1, blackKings := t.blackKings + 1)
      else t.(blackPieces := t.blackPieces + 1,
              positional := t.positional + p.r + (if p.c == 0 || p.c == 7 then 5 else 0))
  }

  /** A position of the row-major scan: row r, column c, or the end. */
  predicate Point(r: int, c: int) { 0 <= r <= Size && 0 <= c <= Size && (r < Size || c == 0) }

  /** The counters after the squares before (r, c) in row-major order. */
  function TallyBefore(g: Grid, r: int, c: int): Tally
    requires ValidGrid(g) && Point(r, c)
    decreases r, c
  {
    if c > 0 then CellTally(TallyBefore(g, r, c - 1), Get(g, Pos(r, c - 1)), Pos(r, c - 1))
    else if r > 0 then TallyBefore(g, r - 1, Size)
    else Tally(0, 0, 0, 0, 0)
  }

  /** The board terms of evaluateBoard: advancement, then 100 a piece and
      KING_VALUE * 100 more a king, black minus white. */
  function Material(t: Tally): int
  {
    t.positional + (t.blackPieces - t.whitePieces) * 100 + (t.blackKings - t.whiteKings) * KingBonus
  }

  /** Twice black's number of legal moves minus white's. */
  function Mobility(g: Grid): int
    requires ValidGrid(g)
  {
    (|PossibleMoves(g, false)| - |PossibleMoves(g, true)|) * 2
  }

  /** evaluateBoard: a lost game for black (status 1) or white (status 2)
      scores -WinScore or WinScore; otherwise mobility plus the board terms. */
  function Evaluate(g: Grid, status: int): int
    requires ValidGrid(g)
  {
    if status == 1 then -WinScore
    else if status == 2 then WinScore
    else Mobility(g) + Material(TallyBefore(g, Size, 0))
  }

  /** The worth of one square on its own, as an independent reading of the
      board terms. */
  function PieceValue(piece: int, p: Pos): int
  {
    if piece == WhiteMan then -100 - (7 - p.r)
    else if piece == WhiteKing then -100 - KingBonus
    else if piece == BlackMan then 100 + p.r + (if p.c == 0 || p.c == 7 then 5 else 0)
    else if piece == BlackKing then 100 + KingBonus
    else 0
  }

  /** The worth of the squares before (r, c). */
  function ValueBefore(g: Grid, r: int, c: int): int
    requires ValidGrid(g) && Point(r, c)
    decreases r, c
  {
    if c > 0 then ValueBefore(g, r, c - 1) + PieceValue(Get(g, Pos(r, c - 1)), Pos(r, c - 1))
    else if r > 0 then ValueBefore(g, r - 1, Size)
    else 0
  }

  /** The worth of the whole board. */
  function BoardValue(g: Grid): int
    requires ValidGrid(g)
  {
    ValueBefore(g, Size, 0)
  }

  /** The counters amount to the sum of the squares' own worths. */
  lemma {:induction false} MaterialIsValueSum(g: Grid, r: int, c: int)
    requires ValidGrid(g) && Point(r, c)
    ensures Material(TallyBefore(g, r, c)) == ValueBefore(g, r, c)
    decreases r, c
  {
    if c > 0 {
      MaterialIsValueSum(g, r, c - 1);
    } else if r > 0 {
      MaterialIsValueSum(g, r - 1, Size);
    }
  }

  /** Each square is worth at most a king, so the board terms stay within
      800 points a square, far from a win score. */
  lemma {:induction false} ValueBound(g: Grid, r: int, c: int)
    requires ValidGrid(g) && Point(r, c)
    ensures -800 * (8 * r + c) <= ValueBefore(g, r, c) <= 800 * (8 * r + c)
    decreases r, c
  {
    if c > 0 {
      ValueBound(g, r, c - 1);
      var p := Pos(r, c - 1);
      assert -800 <= PieceValue(Get(g, p), p) <= 800;
    } else if r > 0 {
      ValueBound(g, r - 1, Size);
    }
  }

  /** An undecided position scores its mobility plus the squares' worths,
      and the board part never reaches a win score. */
  lemma EvaluateUndecided(g: Grid, status: int)
    requires ValidGrid(g) && status != 1 && status != 2
    ensures Evaluate(g, status) == Mobility(g) + BoardValue(g)
    ensures -WinScore < BoardValue(g) < WinScore
  {
    MaterialIsValueSum(g, Size, 0);
    ValueBound(g, Size, 0);
  }

  /** Evaluated with its own status, a position where white cannot move
      scores WinScore, one where only black cannot move scores -WinScore. */
  lemma TerminalScores(g: Grid)
    requires ValidGrid(g)
    ensures !CanMove(g, true) ==> Evaluate(g, GameStatus(g)) == WinScore
    ensures CanMove(g, true) && !CanMove(g, false) ==> Evaluate(g, GameStatus(g)) == -WinScore
    ensures CanMove(g, true) && CanMove(g, false) ==>
      Evaluate(g, GameStatus(g)) == Mobility(g) + BoardValue(g)
  {
    GameStatusSpec(g);
    if CanMove(g, true) && CanMove(g, false) {
      EvaluateUndecided(g, GameStatus(g));
    }
  }

  /** The edge bonus is black's alone: a black man and the white man on the
      mirrored square do not cancel when the black man stands on an edge
      column. */
  lemma EdgeBonusOneSided(p: Pos)
    requires OnBoard(p)
    ensures PieceValue(BlackMan, p) + PieceValue(WhiteMan, Pos(7 - p.r, 7 - p.c)) ==
      if p.c == 0 || p.c == 7 then 5 else 0
    ensures PieceValue(BlackKing, p) + PieceValue(WhiteKing, Pos(7 - p.r, 7 - p.c)) == 0
  {
  }

  /** One square of evaluateBoard's scan: the counters and the running
      score (whose board part is score - base) after the piece on p. */
  method ScoreSquare(piece: int, p: Pos, ghost base: int,
                     whitePieces: int, blackPieces: int, whiteKings: int, blackKings: int, score: int)
    returns (whitePieces': int, blackPieces': int, whiteKings': int, blackKings': int, score': int)
    requires IsCode(piece)
    ensures Tally(whitePieces', blackPieces', whiteKings', blackKings', score' - base) ==
      CellTally(Tally(whitePieces, blackPieces, whiteKings, blackKings, score - base), piece, p)
  {
    whitePieces', blackPieces', whiteKings', blackKings', score' := whitePieces, blackPieces, whiteKings, blackKings, score;
    if piece != Empty {
      if IsWhitePiece(piece) {
        whitePieces' := whitePieces' + 1;
        if IsKing(piece) {
          whiteKings' := whiteKings' + 1;
        } else {
          score' := score' - (7 - p.r);
        }
      } else {
        blackPieces' := blackPieces' + 1;
        if IsKing(piece) {
          blackKings' := blackKings' + 1;
        } else {
          score' := score' + p.r;
          if p.c == 0 || p.c == 7 {
            score' := score' + 5;
          }
        }
      }
    }
  }

  /** evaluateBoard: both sides' mobility, then one pass over the board. */
  method EvaluateBoard(g: Grid, status: int) returns (score: int)
    requires ValidGrid(g)
    ensures score == Evaluate(g, status)
  {
    if status == 1 {
      return -WinScore;
    }
    if status == 2 {
      return WinScore;
    }
    var whiteMoves := GetAllPossibleMovesForPlayer(g, true);
    var blackMoves := GetAllPossibleMovesForPlayer(g, false);
    var mobility := (|blackMoves| - |whiteMoves|) * 2;
    score := mobility;
    var whitePieces, blackPieces, whiteKings, blackKings := 0, 0, 0, 0;
    for r := 0 to Size
      invariant Tally(whitePieces, blackPieces, whiteKings, blackKings, score - mobility) == TallyBefore(g, r, 0)
    {
      for c := 0 to Size
        invariant Tally(whitePieces, blackPieces, whiteKings, blackKings, score - mobility) == TallyBefore(g, r, c)
      {
        whitePieces, blackPieces, whiteKings, blackKings, score :=
          ScoreSquare(g[r][c], Pos(r, c), mobility, whitePieces, blackPieces, whiteKings, blackKings, score);
      }
    }
    assert Mobility(g) == mobility;
    score := score + (blackPieces - whitePieces) * 100;
    score := score + (blackKings - whiteKings) * KingBonus;
  }

  // ----------------------------------------------------------- hashing

  /** The Zobrist table: a key per square and cell code. At start-up each
      key is a random long drawn below Long.MAX_VALUE, so never negative; the
      keys here are parameters, non-negative and below 2^63. */
  type Zobrist = seq<seq<seq<nat>>>

  predicate ValidTable(z: Zobrist)
  {
    |z| == Size &&
    forall r :: 0 <= r < Size ==> (|z[r]| == Size &&
      forall c :: 0 <= c < Size ==> (|z[r][c]| == 5 && forall k :: 0 <= k < 5 ==> z[r][c][k] < Pow2(63)))
  }

  /** A square's contribution: its piece's key, nothing for an empty square. */
  function Key(z: Zobrist, p: Pos, piece: int): nat
    requires ValidTable(z) && OnBoard(p) && IsCode(piece)
  {
    if piece == Empty then 0 else z[p.r][p.c][piece]
  }

  /** The keys of the squares before (r, c), combined by exclusive or. */
  function HashBefore(z: Zobrist, g: Grid, r: int, c: int): nat
    requires ValidTable(z) && ValidGrid(g) && Point(r, c)
    decreases r, c
  {
    if c > 0 then Xor(HashBefore(z, g, r, c - 1), Key(z, Pos(r, c - 1), Get(g, Pos(r, c - 1))))
    else if r > 0 then HashBefore(z, g, r - 1, Size)
    else 0
  }

  /** getBoardHash's result. */
  function BoardHash(z: Zobrist, g: Grid): nat
    requires ValidTable(z) && ValidGrid(g)
  {
    HashBefore(z, g, Size, 0)
  }

  /** getBoardHash */
  method GetBoardHash(z: Zobrist, g: Grid) returns (hash: nat)
    requires ValidTable(z) && ValidGrid(g)
    ensures hash == BoardHash(z, g)
  {
    hash := 0;
    for r := 0 to Size
      invariant hash == HashBefore(z, g, r, 0)
    {
      for c := 0 to Size
        invariant hash == HashBefore(z, g, r, c)
      {
        var piece := g[r][c];
        if piece != Empty {
          hash := Xor(hash, z[r][c][piece]);
        } else {
          XorZero(hash);
        }
      }
    }
  }

  lemma {:induction false} HashBound(z: Zobrist, g: Grid, r: int, c: int)
    requires ValidTable(z) && ValidGrid(g) && Point(r, c)
    ensures HashBefore(z, g, r, c) < Pow2(63)
    decreases r, c
  {
    if c > 0 {
      HashBound(z, g, r, c - 1);
      XorBound(HashBefore(z, g, r, c - 1), Key(z, Pos(r, c - 1), Get(g, Pos(r, c - 1))), 63);
    } else if r > 0 {
      HashBound(z, g, r - 1, Size);
    } else {
      Pow2Positive(63);
    }
  }

  /** The hash, like the keys, is a non-negative 64-bit integer. */
  lemma BoardHashBound(z: Zobrist, g: Grid)
    requires ValidTable(z) && ValidGrid(g)
    ensures BoardHash(z, g) < Pow2(63)
  {
    HashBound(z, g, Size, 0);
  }

  lemma {:induction false} EmptyHashBefore(z: Zobrist, r: int, c: int)
    requires ValidTable(z) && Point(r, c)
    ensures HashBefore(z, EmptyGrid(), r, c) == 0
    decreases r, c
  {
    if c > 0 {
      EmptyHashBefore(z, r, c - 1);
      XorZero(0);
    } else if r > 0 {
      EmptyHashBefore(z, r - 1, Size);
    }
  }

  /** The empty board hashes to zero, whatever the table. */
  lemma EmptyBoardHash(z: Zobrist)
    requires ValidTable(z)
    ensures BoardHash(z, EmptyGrid()) == 0
  {
    EmptyHashBefore(z, Size, 0);
  }

  /** Whether square p comes before (r, c) in row-major order. */
  predicate Precedes(p: Pos, r: int, c: int) { p.r < r || (p.r == r && p.c < c) }

  /** What setting p to x adds to the keys of the squares before (r, c). */
  function SetDelta(z: Zobrist, g: Grid, p: Pos, x: int, r: int, c: int): nat
    requires ValidTable(z) && ValidGrid(g) && OnBoard(p) && IsCode(x)
  {
    if Precedes(p, r, c) then Xor(Key(z, p, Get(g, p)), Key(z, p, x)) else 0
  }

  lemma {:induction false} SetHashBefore(z: Zobrist, g: Grid, p: Pos, x: int, r: int, c: int)
    requires ValidTable(z) && ValidGrid(g) && OnBoard(p) && IsCode(x) && Point(r, c)
    ensures HashBefore(z, Set(g, p, x), r, c) == Xor(HashBefore(z, g, r, c), SetDelta(z, g, p, x, r, c))
    decreases r, c
  {
    var h := Set(g, p, x);
    if c > 0 {
      SetHashBefore(z, g, p, x, r, c - 1);
      var q := Pos(r, c - 1);
      var before := HashBefore(z, g, r, c - 1);
      var kg, kh := Key(z, q, Get(g, q)), Key(z, q, Get(h, q));
      if q == p {
        assert SetDelta(z, g, p, x, r, c - 1) == 0;
        XorZero(before);
        XorSwap(before, kg, kh);
      } else {
        assert kh == kg;
        XorShuffle(before, SetDelta(z, g, p, x, r, c), kg);
      }
    } else if r > 0 {
      SetHashBefore(z, g, p, x, r - 1, Size);
      assert SetDelta(z, g, p, x, r, c) == SetDelta(z, g, p, x, r - 1, Size);
    } else {
      XorZero(0);
    }
  }

  /** Changing one square changes the hash by exactly the old and the new
      piece's keys on that square: the key of a position can be kept up to
      date move by move. */
  lemma HashAfterSet(z: Zobrist, g: Grid, p: Pos, x: int)
    requires ValidTable(z) && ValidGrid(g) && OnBoard(p) && IsCode(x)
    ensures BoardHash(z, Set(g, p, x)) == Xor(Xor(BoardHash(z, g), Key(z, p, Get(g, p))), Key(z, p, x))
  {
    SetHashBefore(z, g, p, x, Size, 0);
    XorAssoc(BoardHash(z, g), Key(z, p, Get(g, p)), Key(z, p, x));
  }
}
