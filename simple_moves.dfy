/** Non-capturing moves: getSimpleMovesForPiece and getSimpleMovesForPlayer
    of GameView. A man steps one square diagonally forward onto an empty
    square; a king slides any number of empty squares along each diagonal. */
module SimpleMoves {
  import opened JavaText
  import opened Board
  import opened Moves

  /** A square a piece can move onto: on the board and empty. */
  predicate Open(g: Grid, q: Pos)
    requires ValidGrid(g)
  {
    OnBoard(q) && Get(g, q) == Empty
  }

  /** The squares a king slides over along d, from the k-th step on, up to
      the edge or the first occupied square. */
  function Slide(g: Grid, p: Pos, d: Dir, k: int): seq<Pos>
    requires ValidGrid(g) && OnBoard(p) && k >= 1
    decreases Size - k
  {
    var q := Along(p, d, k);
    if Open(g, q) then [q] + Slide(g, p, d, k + 1) else []
  }

  /** A slide lists the squares in order of distance, each on the board and
      empty. */
  lemma {:induction false} SlideSquares(g: Grid, p: Pos, d: Dir, k: int)
    requires ValidGrid(g) && OnBoard(p) && k >= 1
    ensures forall i :: 0 <= i < |Slide(g, p, d, k)| ==>
      Slide(g, p, d, k)[i] == Along(p, d, k + i) && OnBoard(Slide(g, p, d, k)[i]) && Get(g, Slide(g, p, d, k)[i]) == Empty
    decreases Size - k
  {
    var q := Along(p, d, k);
    if OnBoard(q) && Get(g, q) == Empty {
      var rest := Slide(g, p, d, k + 1);
      SlideSquares(g, p, d, k + 1);
      assert Slide(g, p, d, k) == [q] + rest;
      forall i | 1 <= i < 1 + |rest|
        ensures ([q] + rest)[i] == rest[i - 1] == Along(p, d, k + i)
      {
        assert k + 1 + (i - 1) == k + i;
      }
    }
  }

  /** The square after the last one of a slide is off the board or
      occupied. */
  lemma {:induction false} SlideStops(g: Grid, p: Pos, d: Dir, k: int)
    requires ValidGrid(g) && OnBoard(p) && k >= 1
    ensures !Open(g, Along(p, d, k + |Slide(g, p, d, k)|))
    decreases Size - k
  {
    var q := Along(p, d, k);
    if Open(g, q) {
      var rest := Slide(g, p, d, k + 1);
      SlideStops(g, p, d, k + 1);
      assert Slide(g, p, d, k) == [q] + rest;
      var n := k + |Slide(g, p, d, k)|;
      assert n == k + 1 + |rest|;
      assert Along(p, d, n) == Along(p, d, k + 1 + |rest|);
    } else {
      assert Slide(g, p, d, k) == [];
    }
  }

  /** Every square up to the k-th along d is on the board and empty. */
  predicate ClearUpTo(g: Grid, p: Pos, d: Dir, k: int)
    requires ValidGrid(g)
  {
    forall j :: 1 <= j <= k ==> OnBoard(Along(p, d, j)) && Get(g, Along(p, d, j)) == Empty
  }

  /** The slides along the first n of the four directions, in table order. */
  function KingSlides(g: Grid, p: Pos, n: int): seq<Pos>
    requires ValidGrid(g) && OnBoard(p) && 0 <= n <= 4
  {
    if n == 0 then [] else KingSlides(g, p, n - 1) + Slide(g, p, Directions()[n - 1], 1)
  }

  /** The row a man moves towards: up (-1) for white, down (+1) otherwise. */
  function Forward(piece: int): int
  {
    if IsWhitePiece(piece) then -1 else 1
  }

  /** The square one row forward and dc columns aside, if it is empty. */
  function ManStep(g: Grid, p: Pos, piece: int, dc: int): seq<Pos>
    requires ValidGrid(g)
  {
    var q := Pos(p.r + Forward(piece), p.c + dc);
    if OnBoard(q) && Get(g, q) == Empty then [q] else []
  }

  /** The empty squares diagonally forward of a man, left one first. */
  function ManTargets(g: Grid, p: Pos, piece: int): seq<Pos>
    requires ValidGrid(g) && OnBoard(p)
  {
    ManStep(g, p, piece, -1) + ManStep(g, p, piece, 1)
  }

  /** A man reaches exactly the empty squares one row forward (up for
      white, down for black) and one column aside. */
  lemma ManTargetsExactly(g: Grid, p: Pos, piece: int, t: Pos)
    requires ValidGrid(g) && OnBoard(p)
    ensures t in ManTargets(g, p, piece) <==>
      OnBoard(t) && t.r == p.r + Forward(piece) && Abs(t.c - p.c) == 1 && Get(g, t) == Empty
    ensures |ManTargets(g, p, piece)| <= 2
  {
  }

  /** The simple-move destinations of whatever stands on p. */
  function PieceTargets(g: Grid, p: Pos): seq<Pos>
    requires ValidGrid(g) && OnBoard(p)
  {
    if IsKing(Get(g, p)) then KingSlides(g, p, 4) else ManTargets(g, p, Get(g, p))
  }

  /** A king reaches exactly the squares t that lie k >= 1 steps away along
      one of the four diagonals with every square up to and including t
      empty. */
  lemma KingTargets(g: Grid, p: Pos, t: Pos)
    requires ValidGrid(g) && OnBoard(p) && IsKing(Get(g, p))
    ensures t in PieceTargets(g, p) <==>
      exists d, k :: d in Directions() && k >= 1 && t == Along(p, d, k) && ClearUpTo(g, p, d, k)
  {
    forall n | 0 <= n <= 4
      ensures t in KingSlides(g, p, n) <==>
        exists i, k :: 0 <= i < n && k >= 1 && t == Along(p, Directions()[i], k) && ClearUpTo(g, p, Directions()[i], k)
    {
      KingSlidesMember(g, p, t, n);
    }
    if exists d, k :: d in Directions() && k >= 1 && t == Along(p, d, k) && ClearUpTo(g, p, d, k) {
      var d, k :| d in Directions() && k >= 1 && t == Along(p, d, k) && ClearUpTo(g, p, d, k);
      var i :| 0 <= i < 4 && Directions()[i] == d;
      assert 0 <= i < 4 && k >= 1 && t == Along(p, Directions()[i], k) && ClearUpTo(g, p, Directions()[i], k);
    }
  }

  lemma {:induction false} KingSlidesMember(g: Grid, p: Pos, t: Pos, n: int)
    requires ValidGrid(g) && OnBoard(p) && 0 <= n <= 4
    ensures t in KingSlides(g, p, n) <==>
      exists i, k :: 0 <= i < n && k >= 1 && t == Along(p, Directions()[i], k) && ClearUpTo(g, p, Directions()[i], k)
  {
    if n > 0 {
      KingSlidesMember(g, p, t, n - 1);
      var d := Directions()[n - 1];
      SlideMember(g, p, d, t);
      if t in Slide(g, p, d, 1) {
        var k :| k >= 1 && t == Along(p, d, k) && ClearUpTo(g, p, d, k);
        assert 0 <= n - 1 < n && k >= 1 && t == Along(p, Directions()[n - 1], k) && ClearUpTo(g, p, Directions()[n - 1], k);
      }
    }
  }

  /** A square is on the slide along d exactly when the path to it is clear. */
  lemma SlideMember(g: Grid, p: Pos, d: Dir, t: Pos)
    requires ValidGrid(g) && OnBoard(p) && IsDir(d)
    ensures t in Slide(g, p, d, 1) <==> exists k :: k >= 1 && t == Along(p, d, k) && ClearUpTo(g, p, d, k)
  {
    if t in Slide(g, p, d, 1) {
      SlideReached(g, p, d, t);
    }
    if k :| k >= 1 && t == Along(p, d, k) && ClearUpTo(g, p, d, k) {
      ClearOnSlide(g, p, d, k);
    }
  }

  /** Every square on the slide is reached along a clear path. */
  lemma SlideReached(g: Grid, p: Pos, d: Dir, t: Pos)
    requires ValidGrid(g) && OnBoard(p) && t in Slide(g, p, d, 1)
    ensures exists k :: k >= 1 && t == Along(p, d, k) && ClearUpTo(g, p, d, k)
  {
    var ts := Slide(g, p, d, 1);
    SlideSquares(g, p, d, 1);
    var i :| 0 <= i < |ts| && ts[i] == t;
    assert ClearUpTo(g, p, d, i + 1) by {
      forall j | 1 <= j <= i + 1
        ensures OnBoard(Along(p, d, j)) && Get(g, Along(p, d, j)) == Empty
      {
        assert ts[j - 1] == Along(p, d, j);
      }
    }
    assert t == Along(p, d, i + 1);
  }

  /** A square at the end of a clear path is on the slide. */
  lemma ClearOnSlide(g: Grid, p: Pos, d: Dir, k: int)
    requires ValidGrid(g) && OnBoard(p) && k >= 1 && ClearUpTo(g, p, d, k)
    ensures Along(p, d, k) in Slide(g, p, d, 1)
  {
    var ts := Slide(g, p, d, 1);
    SlideSquares(g, p, d, 1);
    SlideStops(g, p, d, 1);
    var n := 1 + |ts|;
    assert !Open(g, Along(p, d, n));
    assert k < n;
    assert ts[k - 1] == Along(p, d, k);
  }

  // ------------------------------------------------------- per player

  /** The two-square moves [p, t] for every target t, in order. */
  function FromTo(p: Pos, ts: seq<Pos>): seq<Move>
  {
    if |ts| == 0 then [] else FromTo(p, ts[..|ts| - 1]) + [[p, ts[|ts| - 1]]]
  }

  lemma {:induction false} FromToShape(p: Pos, ts: seq<Pos>)
    ensures |FromTo(p, ts)| == |ts|
    ensures forall i :: 0 <= i < |ts| ==> FromTo(p, ts)[i] == [p, ts[i]]
  {
    if |ts| > 0 {
      FromToShape(p, ts[..|ts| - 1]);
    }
  }

  /** The simple moves of the piece on p if it belongs to the player. */
  function PieceMoves(g: Grid, p: Pos, white: bool): seq<Move>
    requires ValidGrid(g) && OnBoard(p)
  {
    if IsPlayerPiece(Get(g, p), white) then FromTo(p, PieceTargets(g, p)) else []
  }

  /** The simple moves of the player's pieces on the squares before (r, c)
      in row-major order. */
  function MovesBefore(g: Grid, white: bool, r: int, c: int): seq<Move>
    requires ValidGrid(g) && 0 <= r <= Size && 0 <= c <= Size && (r < Size || c == 0)
    decreases r, c
  {
    if c > 0 then MovesBefore(g, white, r, c - 1) + PieceMoves(g, Pos(r, c - 1), white)
    else if r > 0 then MovesBefore(g, white, r - 1, Size)
    else []
  }

  /** getSimpleMovesForPlayer's result: the pieces in row-major order. */
  function SimpleMovesForPlayer(g: Grid, white: bool): seq<Move>
    requires ValidGrid(g)
  {
    MovesBefore(g, white, Size, 0)
  }

  /** What a simple move of a player is: a start square holding one of the
      player's pieces, and one of that piece's simple targets. */
  predicate IsSimpleMove(g: Grid, white: bool, m: Move)
    requires ValidGrid(g)
  {
    |m| == 2 && OnBoard(m[0]) && IsPlayerPiece(Get(g, m[0]), white) && m[1] in PieceTargets(g, m[0])
  }

  /** The player's simple moves are exactly the moves IsSimpleMove admits. */
  lemma SimpleMovesExactly(g: Grid, white: bool, m: Move)
    requires ValidGrid(g)
    ensures m in SimpleMovesForPlayer(g, white) <==> IsSimpleMove(g, white, m)
  {
    MovesBeforeMember(g, white, m, Size, 0);
  }

  lemma {:induction false} MovesBeforeMember(g: Grid, white: bool, m: Move, r: int, c: int)
    requires ValidGrid(g) && 0 <= r <= Size && 0 <= c <= Size && (r < Size || c == 0)
    ensures m in MovesBefore(g, white, r, c) <==>
      IsSimpleMove(g, white, m) && (m[0].r < r || (m[0].r == r && m[0].c < c))
    decreases r, c
  {
    if c > 0 {
      MovesBeforeMember(g, white, m, r, c - 1);
      PieceMovesMember(g, Pos(r, c - 1), white, m);
    } else if r > 0 {
      MovesBeforeMember(g, white, m, r - 1, Size);
    }
  }

  lemma PieceMovesMember(g: Grid, p: Pos, white: bool, m: Move)
    requires ValidGrid(g) && OnBoard(p)
    ensures m in PieceMoves(g, p, white) <==> IsSimpleMove(g, white, m) && m[0] == p
  {
    FromToMember(p, PieceTargets(g, p), m);
  }

  /** The moves from p to the targets are the two-square moves from p to
      one of them. */
  lemma FromToMember(p: Pos, ts: seq<Pos>, m: Move)
    ensures m in FromTo(p, ts) <==> |m| == 2 && m[0] == p && m[1] in ts
  {
    var ms := FromTo(p, ts);
    FromToShape(p, ts);
    if m in ms {
      var i :| 0 <= i < |ms| && ms[i] == m;
    }
    if |m| == 2 && m[0] == p && m[1] in ts {
      var i :| 0 <= i < |ts| && ts[i] == m[1];
      assert [m[0], m[1]] == m;
      assert ms[i] == m;
    }
  }

  /** A man's simple move covers one row and is never counted as a capture. */
  lemma ManMoveIsNoCapture(g: Grid, white: bool, m: Move)
    requires ValidGrid(g) && IsSimpleMove(g, white, m) && !IsKing(Get(g, m[0]))
    ensures CountCaptures(m) == 0
  {
    assert m[..1] == [m[0]];
  }

  /** But a king's slide of two or more squares has rows differing by two or
      more, so countCapturesInSequence counts it as one capture. */
  lemma LongKingSlideCountsAsCapture(g: Grid, white: bool, m: Move)
    requires ValidGrid(g) && IsSimpleMove(g, white, m) && IsKing(Get(g, m[0]))
    requires Abs(m[1].r - m[0].r) >= 2
    ensures CountCaptures(m) == 1
  {
    assert m[..1] == [m[0]];
  }

  // ------------------------------------------------------------ methods

  /** getSimpleMovesForPiece: a king's slides in the four directions in
      table order, a man's forward steps left one first. */
  method GetSimpleMovesForPiece(g: Grid, p: Pos) returns (moves: seq<Pos>)
    requires ValidGrid(g) && OnBoard(p)
    ensures moves == PieceTargets(g, p)
  {
    var piece := g[p.r][p.c];
    moves := [];
    if IsKing(piece) {
      for i := 0 to 4
        invariant moves == KingSlides(g, p, i)
      {
        moves := AddSlide(g, p, Directions()[i], moves);
      }
    } else {
      var forwardDir := if IsWhitePiece(piece) then -1 else 1;
      var dcs: seq<int> := [-1, 1];
      assert |dcs| == 2 && dcs[0] == -1 && dcs[1] == 1;
      for i := 0 to 2
        invariant i == 0 ==> moves == []
        invariant i == 1 ==> moves == ManStep(g, p, piece, -1)
        invariant i == 2 ==> moves == ManStep(g, p, piece, -1) + ManStep(g, p, piece, 1)
      {
        var newR, newC := p.r + forwardDir, p.c + dcs[i];
        if InBounds(newR, newC) && g[newR][newC] == Empty {
          moves := moves + [Pos(newR, newC)];
        }
      }
    }
  }

  /** One direction of the king's branch of getSimpleMovesForPiece: step
      along d while the square is on the board and empty, adding each. */
  method AddSlide(g: Grid, p: Pos, d: Dir, moves: seq<Pos>) returns (moves': seq<Pos>)
    requires ValidGrid(g) && OnBoard(p) && IsDir(d)
    ensures moves' == moves + Slide(g, p, d, 1)
  {
    moves' := moves;
    var tempR, tempC := p.r + d.dr, p.c + d.dc;
    ghost var k := 1;
    assert Pos(tempR, tempC) == Along(p, d, 1);
    while InBounds(tempR, tempC) && g[tempR][tempC] == Empty
      invariant k >= 1 && Pos(tempR, tempC) == Along(p, d, k)
      invariant moves' + Slide(g, p, d, k) == moves + Slide(g, p, d, 1)
      decreases Size - k
    {
      assert Slide(g, p, d, k) == [Pos(tempR, tempC)] + Slide(g, p, d, k + 1);
      assert moves' + Slide(g, p, d, k) == (moves' + [Pos(tempR, tempC)]) + Slide(g, p, d, k + 1);
      moves' := moves' + [Pos(tempR, tempC)];
      AlongNext(p, d, k);
      tempR, tempC := tempR + d.dr, tempC + d.dc;
      k := k + 1;
    }
    assert Slide(g, p, d, k) == [];
    assert moves' + [] == moves';
  }

  /** getSimpleMovesForPlayer: every player piece in row-major order, each
      of its targets in the order getSimpleMovesForPiece lists them. */
  method GetSimpleMovesForPlayer(g: Grid, white: bool) returns (allMoves: seq<Move>)
    requires ValidGrid(g)
    ensures allMoves == SimpleMovesForPlayer(g, white)
    ensures forall m :: m in allMoves <==> IsSimpleMove(g, white, m)
  {
    allMoves := [];
    for r := 0 to Size
      invariant allMoves == MovesBefore(g, white, r, 0)
    {
      for c := 0 to Size
        invariant allMoves == MovesBefore(g, white, r, c)
      {
        allMoves := AddPieceMoves(g, Pos(r, c), white, allMoves);
      }
    }
    forall m ensures m in allMoves <==> IsSimpleMove(g, white, m) {
      SimpleMovesExactly(g, white, m);
    }
  }

  /** One square of getSimpleMovesForPlayer's scan: a move to each target
      of the player's piece there, nothing for any other square. */
  method AddPieceMoves(g: Grid, p: Pos, white: bool, allMoves: seq<Move>) returns (allMoves': seq<Move>)
    requires ValidGrid(g) && OnBoard(p)
    ensures allMoves' == allMoves + PieceMoves(g, p, white)
  {
    allMoves' := allMoves;
    if IsPlayerPiece(g[p.r][p.c], white) {
      var moves := GetSimpleMovesForPiece(g, p);
      for j := 0 to |moves|
        invariant allMoves' == allMoves + FromTo(p, moves[..j])
      {
        assert moves[..j + 1][..j] == moves[..j];
        AppendAssoc(allMoves, FromTo(p, moves[..j]), [[p, moves[j]]]);
        allMoves' := allMoves' + [[p, moves[j]]];
      }
      assert moves[..|moves|] == moves;
    } else {
      assert allMoves + [] == allMoves;
    }
  }
}
