/** The draughts board of GameView: an 8x8 grid of cell codes, the piece
    predicates, coordinates and diagonal directions, and the initial layout. */
module Board {

  const Size: int := 8

  // Cell codes.
  const Empty: int := 0
  const WhiteMan: int := 1
  const BlackMan: int := 2
  const WhiteKing: int := 3
  const BlackKing: int := 4

  predicate IsCode(x: int) { 0 <= x <= 4 }

  predicate IsWhitePiece(piece: int) { piece == WhiteMan || piece == WhiteKing }
  predicate IsBlackPiece(piece: int) { piece == BlackMan || piece == BlackKing }
  predicate IsKing(piece: int) { piece == WhiteKing || piece == BlackKing }

  predicate IsPlayerPiece(piece: int, white: bool)
  {
    if white then IsWhitePiece(piece) else IsBlackPiece(piece)
  }

  /** Whether `other` is an enemy of `piece`; an empty cell never is. */
  predicate IsOpponent(piece: int, other: int)
  {
    if other == Empty then false
    else (IsWhitePiece(piece) && IsBlackPiece(other)) || (IsBlackPiece(piece) && IsWhitePiece(other))
  }

  /** A board coordinate (row, column); rows 0..7 top to bottom. */
  datatype Pos = Pos(r: int, c: int)

  predicate InBounds(r: int, c: int) { 0 <= r < Size && 0 <= c < Size }
  predicate OnBoard(p: Pos) { InBounds(p.r, p.c) }

  /** The dark squares that pieces stand on. */
  predicate Playable(p: Pos) { (p.r + p.c) % 2 != 0 }

  /** One of the four diagonal steps, each component -1 or +1. */
  datatype Dir = Dir(dr: int, dc: int)

  predicate IsDir(d: Dir) { (d.dr == -1 || d.dr == 1) && (d.dc == -1 || d.dc == 1) }

  /** The four directions in the order of the source's dr/dc tables:
      up-left, up-right, down-left, down-right. */
  function Directions(): seq<Dir>
  {
    [Dir(-1, -1), Dir(-1, 1), Dir(1, -1), Dir(1, 1)]
  }

  /** The square k steps from p along d. */
  function Along(p: Pos, d: Dir, k: int): Pos
  {
    Pos(p.r + (if d.dr < 0 then -k else k), p.c + (if d.dc < 0 then -k else k))
  }

  /** One more step along d moves one row and one column further. */
  lemma AlongNext(p: Pos, d: Dir, k: int)
    requires IsDir(d)
    ensures Along(p, d, k + 1) == Pos(Along(p, d, k).r + d.dr, Along(p, d, k).c + d.dc)
  {
  }

  function Abs(x: int): nat { if x < 0 then -x else x }

  // ------------------------------------------------------------------ grid

  type Grid = seq<seq<int>>

  /** An 8x8 board whose cells all hold one of the five codes. */
  predicate ValidGrid(g: Grid)
  {
    |g| == Size && forall r :: 0 <= r < Size ==> |g[r]| == Size && forall c :: 0 <= c < Size ==> IsCode(g[r][c])
  }

  function Get(g: Grid, p: Pos): (x: int)
    requires ValidGrid(g) && OnBoard(p)
    ensures IsCode(x)
  {
    g[p.r][p.c]
  }

  function Set(g: Grid, p: Pos, x: int): (h: Grid)
    requires ValidGrid(g) && OnBoard(p) && IsCode(x)
    ensures ValidGrid(h)
    ensures forall q :: OnBoard(q) ==> Get(h, q) == if q == p then x else Get(g, q)
  {
    g[p.r := g[p.r][p.c := x]]
  }

  /** Two boards that agree on every square are the same board. */
  lemma GridExt(g: Grid, h: Grid)
    requires ValidGrid(g) && ValidGrid(h)
    requires forall q :: OnBoard(q) ==> Get(g, q) == Get(h, q)
    ensures g == h
  {
    forall r | 0 <= r < Size
      ensures g[r] == h[r]
    {
      forall c | 0 <= c < Size
        ensures g[r][c] == h[r][c]
      {
        assert Get(g, Pos(r, c)) == Get(h, Pos(r, c));
      }
    }
  }

  function EmptyGrid(): (g: Grid)
    ensures ValidGrid(g)
    ensures forall q :: OnBoard(q) ==> Get(g, q) == Empty
  {
    seq(Size, r => seq(Size, c => Empty))
  }

  /** The number of squares. */
  const Squares: int := 64

  /** The row-major index of a square, 0..63 on the board. */
  function Index(p: Pos): int { 8 * p.r + p.c }

  /** The square of row-major index k. */
  function CellAt(k: int): (p: Pos)
    requires 0 <= k < Squares
    ensures OnBoard(p) && Index(p) == k
  {
    Pos(k / 8, k % 8)
  }

  /** Every square is the square of its own row-major index. */
  lemma CellIndex(q: Pos)
    requires OnBoard(q)
    ensures 0 <= Index(q) < Squares && CellAt(Index(q)) == q
  {
  }

  /** The starting position: black men on the dark squares of rows 0-2,
      white men on those of rows 5-7. */
  function InitialCell(p: Pos): (x: int)
    ensures IsCode(x)
  {
    if Playable(p) then (if p.r < 3 then BlackMan else if p.r > 4 then WhiteMan else Empty) else Empty
  }

  /** The board as a grid value; the in-place operations are specified
      through it. */
  function Cells(a: array2<int>): (g: Grid)
    requires a.Length0 == Size && a.Length1 == Size
    requires forall r, c :: 0 <= r < Size && 0 <= c < Size ==> IsCode(a[r, c])
    reads a
    ensures ValidGrid(g)
    ensures forall q :: OnBoard(q) ==> Get(g, q) == a[q.r, q.c]
  {
    seq(Size, r requires 0 <= r < Size reads a =>
      seq(Size, c requires 0 <= c < Size reads a => a[r, c]))
  }

  predicate Is8x8(a: array2<int>)
    reads a
  {
    a.Length0 == Size && a.Length1 == Size &&
    forall r, c :: 0 <= r < Size && 0 <= c < Size ==> IsCode(a[r, c])
  }

  /** resetBoard's layout loop: fills a fresh board with the starting
      position, square by square. */
  method ResetBoard() returns (a: array2<int>)
    ensures fresh(a) && Is8x8(a)
    ensures forall q :: OnBoard(q) ==> a[q.r, q.c] == InitialCell(q)
    ensures forall q :: OnBoard(q) && a[q.r, q.c] != Empty ==> Playable(q)
    ensures forall q :: OnBoard(q) ==> (IsBlackPiece(a[q.r, q.c]) <==> Playable(q) && q.r < 3)
    ensures forall q :: OnBoard(q) ==> (IsWhitePiece(a[q.r, q.c]) <==> Playable(q) && q.r > 4)
  {
    a := new int[Size, Size]((r, c) => Empty);
    for row := 0 to Size
      invariant forall r, c :: 0 <= r < Size && 0 <= c < Size ==>
        a[r, c] == if r < row then InitialCell(Pos(r, c)) else Empty
    {
      for col := 0 to Size
        invariant forall r, c :: 0 <= r < Size && 0 <= c < Size ==>
          a[r, c] == if r < row || (r == row && c < col) then InitialCell(Pos(r, c)) else Empty
      {
        if (row + col) % 2 != 0 {
          if row < 3 {
            a[row, col] := BlackMan;
          } else if row > 4 {
            a[row, col] := WhiteMan;
          }
        }
      }
    }
  }
}
