/** findCapturePathsRecursive of GameView: the jumps a piece can make from a
    square, and every capture chain it can play by jumping until no jump is
    left or a man reaches the far row. The king scan is parameterised by how
    it records the captured square: `fixed` records the enemy's own square
    (the evident intent), otherwise the column is taken as the source
    computes it at GameView.java:922. The recursive search here uses the
    fixed scan; the search exactly as written is in CapturesAsWritten. */
module Captures {
  import opened JavaText
  import opened Board
  import opened Moves

  /** A capture jump: where the piece lands and the square it captures. */
  datatype Jump = Jump(dest: Pos, captured: Pos)

  // ------------------------------------------------------------ man jumps

  /** The man's jump over its neighbour along d onto the empty square behind
      it, when that neighbour is an enemy. Men capture in all four
      directions and do not consult the visited squares. */
  function ManJump(g: Grid, p: Pos, piece: int, d: Dir): seq<Jump>
    requires ValidGrid(g) && OnBoard(p) && IsDir(d)
  {
    var over := Along(p, d, 1);
    var dest := Along(p, d, 2);
    if OnBoard(dest) && Get(g, dest) == Empty && IsOpponent(piece, Get(g, over)) then [Jump(dest, over)]
    else []
  }

  /** The man's jumps along the first n directions, in table order. */
  function ManJumpsUpTo(g: Grid, p: Pos, piece: int, n: int): seq<Jump>
    requires ValidGrid(g) && OnBoard(p) && 0 <= n <= 4
  {
    if n == 0 then [] else ManJumpsUpTo(g, p, piece, n - 1) + ManJump(g, p, piece, Directions()[n - 1])
  }

  // ----------------------------------------------------------- king jumps

  /** The square a king's jump records as captured, for the enemy met at
      step opp and the landing square at step k. Fixed: the enemy's square.
      As written: the enemy's row, with the column (r + tempR) / 2 (rows are
      never negative, so Java's division agrees with Dafny's). */
  function CapturedAt(p: Pos, d: Dir, opp: int, k: int, fixed: bool): Pos
  {
    if fixed then Along(p, d, opp)
    else Pos(Along(p, d, opp).r, (p.r + Along(p, d, k).r) / 2)
  }

  /** The king's scan along d from step k on. opp is the step of the enemy
      already passed over, 0 while none has been. An unvisited enemy is
      remembered, a second one ends the scan; any other piece ends it; every
      empty square beyond the enemy is a landing square. */
  function KingScan(g: Grid, p: Pos, piece: int, visited: set<Pos>, d: Dir, k: int, opp: int, fixed: bool): seq<Jump>
    requires ValidGrid(g) && OnBoard(p) && IsDir(d) && 1 <= k && 0 <= opp < k
    decreases Size - k
  {
    var q := Along(p, d, k);
    if !OnBoard(q) then []
    else if IsOpponent(piece, Get(g, q)) && q !in visited then
      (if opp == 0 then KingScan(g, p, piece, visited, d, k + 1, k, fixed) else [])
    else if Get(g, q) != Empty then []
    else
      (if opp != 0 then [Jump(q, CapturedAt(p, d, opp, k, fixed))] else [])
      + KingScan(g, p, piece, visited, d, k + 1, opp, fixed)
  }

  /** The king's jumps along the first n directions, in table order. */
  function KingJumpsUpTo(g: Grid, p: Pos, piece: int, visited: set<Pos>, n: int, fixed: bool): seq<Jump>
    requires ValidGrid(g) && OnBoard(p) && 0 <= n <= 4
  {
    if n == 0 then []
    else KingJumpsUpTo(g, p, piece, visited, n - 1, fixed) + KingScan(g, p, piece, visited, Directions()[n - 1], 1, 0, fixed)
  }

  /** possibleJumps: every jump the piece on p can make. */
  function Jumps(g: Grid, p: Pos, visited: set<Pos>, fixed: bool): seq<Jump>
    requires ValidGrid(g) && OnBoard(p)
  {
    var piece := Get(g, p);
    if IsKing(piece) then KingJumpsUpTo(g, p, piece, visited, 4, fixed) else ManJumpsUpTo(g, p, piece, 4)
  }

  // ---------------------------------------------------------- jump facts

  /** A jump of the piece on p: it lands on an empty square at least two
      rows away and captures an enemy. */
  predicate ValidJump(g: Grid, p: Pos, j: Jump)
    requires ValidGrid(g)
  {
    OnBoard(p) && OnBoard(j.dest) && OnBoard(j.captured) &&
    Get(g, j.dest) == Empty && IsOpponent(Get(g, p), Get(g, j.captured)) && IsJumpStep(p, j.dest)
  }

  /** A jump along a diagonal: the captured square lies strictly between the
      start and the landing square, and every other square passed over is
      empty. */
  predicate OverOneEnemy(g: Grid, p: Pos, j: Jump)
    requires ValidGrid(g) && OnBoard(p)
  {
    exists d, o, k :: d in Directions() && 1 <= o < k < Size && j.captured == Along(p, d, o) && j.dest == Along(p, d, k) &&
      forall i :: 1 <= i < k && i != o ==> OnBoard(Along(p, d, i)) && Get(g, Along(p, d, i)) == Empty
  }

  /** The board after a jump, as the source builds nextBoard: the piece on
      the landing square, its start square and the captured square empty. */
  function NextBoard(g: Grid, p: Pos, j: Jump): (h: Grid)
    requires ValidGrid(g) && OnBoard(p) && OnBoard(j.dest) && OnBoard(j.captured)
    ensures ValidGrid(h)
  {
    Set(Set(Set(g, j.dest, Get(g, p)), p, Empty), j.captured, Empty)
  }

  /** The enemy pieces of `piece` on the board. */
  function Enemies(g: Grid, piece: int): set<Pos>
    requires ValidGrid(g)
  {
    set r, c | 0 <= r < Size && 0 <= c < Size && IsOpponent(piece, g[r][c]) :: Pos(r, c)
  }

  lemma EnemiesMember(g: Grid, piece: int, q: Pos)
    requires ValidGrid(g)
    ensures q in Enemies(g, piece) <==> OnBoard(q) && IsOpponent(piece, Get(g, q))
  {
    if OnBoard(q) && IsOpponent(piece, Get(g, q)) {
      assert q == Pos(q.r, q.c);
    }
  }

  /** A jump removes one enemy and adds none: the search terminates. */
  lemma JumpShrinksEnemies(g: Grid, p: Pos, j: Jump)
    requires ValidGrid(g) && ValidJump(g, p, j)
    ensures Get(NextBoard(g, p, j), j.dest) == Get(g, p)
    ensures Enemies(NextBoard(g, p, j), Get(g, p)) < Enemies(g, Get(g, p))
  {
    var h := NextBoard(g, p, j);
    var piece := Get(g, p);
    forall q | q in Enemies(h, piece)
      ensures q in Enemies(g, piece)
    {
      EnemiesMember(h, piece, q);
      EnemiesMember(g, piece, q);
    }
    EnemiesMember(h, piece, j.captured);
    EnemiesMember(g, piece, j.captured);
  }

  /** Every jump of js is valid and passes over exactly one enemy. */
  predicate JumpsSound(g: Grid, p: Pos, js: seq<Jump>)
    requires ValidGrid(g) && OnBoard(p)
  {
    forall j :: j in js ==> ValidJump(g, p, j) && OverOneEnemy(g, p, j)
  }

  lemma JumpsSoundAppend(g: Grid, p: Pos, a: seq<Jump>, b: seq<Jump>)
    requires ValidGrid(g) && OnBoard(p) && JumpsSound(g, p, a) && JumpsSound(g, p, b)
    ensures JumpsSound(g, p, a + b)
  {
  }

  lemma {:induction false} ManJumpsValid(g: Grid, p: Pos, piece: int, n: int)
    requires ValidGrid(g) && OnBoard(p) && 0 <= n <= 4 && piece == Get(g, p)
    ensures JumpsSound(g, p, ManJumpsUpTo(g, p, piece, n))
  {
    if n > 0 {
      ManJumpsValid(g, p, piece, n - 1);
      var d := Directions()[n - 1];
      var js := ManJump(g, p, piece, d);
      if js != [] {
        var j := js[0];
        assert j.captured == Along(p, d, 1) && j.dest == Along(p, d, 2);
        assert OverOneEnemy(g, p, j) by {
          assert d in Directions();
        }
      }
      JumpsSoundAppend(g, p, ManJumpsUpTo(g, p, piece, n - 1), js);
    }
  }

  /** Every square of the scan's first k-1 steps other than the enemy's is
      empty, and the enemy's square, once met, holds an enemy. */
  predicate ScanSoFar(g: Grid, p: Pos, piece: int, d: Dir, k: int, opp: int)
    requires ValidGrid(g) && OnBoard(p)
  {
    (opp != 0 ==> OnBoard(Along(p, d, opp)) && IsOpponent(piece, Get(g, Along(p, d, opp)))) &&
    forall i :: 1 <= i < k && i != opp ==> OnBoard(Along(p, d, i)) && Get(g, Along(p, d, i)) == Empty
  }

  lemma {:induction false} KingScanValid(g: Grid, p: Pos, piece: int, visited: set<Pos>, d: Dir, k: int, opp: int)
    requires ValidGrid(g) && OnBoard(p) && IsDir(d) && 1 <= k && 0 <= opp < k && piece == Get(g, p)
    requires ScanSoFar(g, p, piece, d, k, opp)
    ensures JumpsSound(g, p, KingScan(g, p, piece, visited, d, k, opp, true))
    decreases Size - k, 1
  {
    var q := Along(p, d, k);
    if OnBoard(q) && IsOpponent(piece, Get(g, q)) && q !in visited && opp == 0 {
      EnemyScanValid(g, p, piece, visited, d, k);
    } else if OnBoard(q) && Get(g, q) == Empty && opp != 0 {
      LandsScanValid(g, p, piece, visited, d, k, opp);
    } else if OnBoard(q) && Get(g, q) == Empty {
      PassesScanValid(g, p, piece, visited, d, k);
    } else {
      assert KingScan(g, p, piece, visited, d, k, opp, true) == [];
    }
  }

  lemma {:induction false} EnemyScanValid(g: Grid, p: Pos, piece: int, visited: set<Pos>, d: Dir, k: int)
    requires ValidGrid(g) && OnBoard(p) && IsDir(d) && 1 <= k && piece == Get(g, p)
    requires ScanSoFar(g, p, piece, d, k, 0)
    requires var q := Along(p, d, k); OnBoard(q) && IsOpponent(piece, Get(g, q)) && q !in visited
    ensures JumpsSound(g, p, KingScan(g, p, piece, visited, d, k, 0, true))
    decreases Size - k, 0
  {
    ScanPastEnemy(g, p, piece, d, k);
    KingScanValid(g, p, piece, visited, d, k + 1, k);
    assert KingScan(g, p, piece, visited, d, k, 0, true) == KingScan(g, p, piece, visited, d, k + 1, k, true);
  }

  lemma {:induction false} LandsScanValid(g: Grid, p: Pos, piece: int, visited: set<Pos>, d: Dir, k: int, opp: int)
    requires ValidGrid(g) && OnBoard(p) && IsDir(d) && 0 < opp < k && piece == Get(g, p)
    requires ScanSoFar(g, p, piece, d, k, opp)
    requires var q := Along(p, d, k); OnBoard(q) && Get(g, q) == Empty
    ensures JumpsSound(g, p, KingScan(g, p, piece, visited, d, k, opp, true))
    decreases Size - k, 0
  {
    var rest := KingScan(g, p, piece, visited, d, k + 1, opp, true);
    ScanPastEmpty(g, p, piece, d, k, opp);
    KingScanValid(g, p, piece, visited, d, k + 1, opp);
    LandingSound(g, p, piece, visited, d, k, opp, rest);
  }

  lemma {:induction false} PassesScanValid(g: Grid, p: Pos, piece: int, visited: set<Pos>, d: Dir, k: int)
    requires ValidGrid(g) && OnBoard(p) && IsDir(d) && 1 <= k && piece == Get(g, p)
    requires ScanSoFar(g, p, piece, d, k, 0)
    requires var q := Along(p, d, k); OnBoard(q) && Get(g, q) == Empty
    ensures JumpsSound(g, p, KingScan(g, p, piece, visited, d, k, 0, true))
    decreases Size - k, 0
  {
    var rest := KingScan(g, p, piece, visited, d, k + 1, 0, true);
    ScanPastEmpty(g, p, piece, d, k, 0);
    KingScanValid(g, p, piece, visited, d, k + 1, 0);
    assert KingScan(g, p, piece, visited, d, k, 0, true) == [] + rest;
    assert [] + rest == rest;
  }

  lemma LandingSound(g: Grid, p: Pos, piece: int, visited: set<Pos>, d: Dir, k: int, opp: int, rest: seq<Jump>)
    requires ValidGrid(g) && OnBoard(p) && IsDir(d) && 0 < opp < k && piece == Get(g, p)
    requires ScanSoFar(g, p, piece, d, k, opp)
    requires var q := Along(p, d, k); OnBoard(q) && Get(g, q) == Empty
    requires rest == KingScan(g, p, piece, visited, d, k + 1, opp, true) && JumpsSound(g, p, rest)
    ensures JumpsSound(g, p, KingScan(g, p, piece, visited, d, k, opp, true))
  {
    LandingValid(g, p, piece, d, k, opp);
    JumpsSoundCons(g, p, Jump(Along(p, d, k), Along(p, d, opp)), rest);
    KingScanLands(g, p, piece, visited, d, k, opp);
  }

  lemma JumpsSoundCons(g: Grid, p: Pos, j: Jump, rest: seq<Jump>)
    requires ValidGrid(g) && OnBoard(p) && ValidJump(g, p, j) && OverOneEnemy(g, p, j) && JumpsSound(g, p, rest)
    ensures JumpsSound(g, p, [j] + rest)
  {
  }

  /** Beyond the enemy, an empty square adds its jump to the rest of the scan. */
  lemma KingScanLands(g: Grid, p: Pos, piece: int, visited: set<Pos>, d: Dir, k: int, opp: int)
    requires ValidGrid(g) && OnBoard(p) && IsDir(d) && 0 < opp < k
    requires var q := Along(p, d, k); OnBoard(q) && Get(g, q) == Empty
    ensures KingScan(g, p, piece, visited, d, k, opp, true)
      == [Jump(Along(p, d, k), Along(p, d, opp))] + KingScan(g, p, piece, visited, d, k + 1, opp, true)
  {
  }

  lemma ScanPastEnemy(g: Grid, p: Pos, piece: int, d: Dir, k: int)
    requires ValidGrid(g) && OnBoard(p) && 1 <= k && OnBoard(Along(p, d, k))
    requires ScanSoFar(g, p, piece, d, k, 0) && IsOpponent(piece, Get(g, Along(p, d, k)))
    ensures ScanSoFar(g, p, piece, d, k + 1, k)
  {
  }

  lemma ScanPastEmpty(g: Grid, p: Pos, piece: int, d: Dir, k: int, opp: int)
    requires ValidGrid(g) && OnBoard(p) && 0 <= opp < k && OnBoard(Along(p, d, k))
    requires ScanSoFar(g, p, piece, d, k, opp) && Get(g, Along(p, d, k)) == Empty
    ensures ScanSoFar(g, p, piece, d, k + 1, opp)
  {
  }

  /** An empty square beyond the enemy is a valid landing square. */
  lemma LandingValid(g: Grid, p: Pos, piece: int, d: Dir, k: int, opp: int)
    requires ValidGrid(g) && OnBoard(p) && IsDir(d) && 0 < opp < k && k < Size
    requires piece == Get(g, p) && OnBoard(Along(p, d, k)) && Get(g, Along(p, d, k)) == Empty
    requires ScanSoFar(g, p, piece, d, k, opp)
    ensures ValidJump(g, p, Jump(Along(p, d, k), Along(p, d, opp)))
    ensures OverOneEnemy(g, p, Jump(Along(p, d, k), Along(p, d, opp)))
  {
    DirectionListed(d);
  }

  lemma DirectionListed(d: Dir)
    requires IsDir(d)
    ensures d in Directions()
  {
  }

  lemma {:induction false} KingJumpsValid(g: Grid, p: Pos, piece: int, visited: set<Pos>, n: int)
    requires ValidGrid(g) && OnBoard(p) && 0 <= n <= 4 && piece == Get(g, p)
    ensures JumpsSound(g, p, KingJumpsUpTo(g, p, piece, visited, n, true))
  {
    if n > 0 {
      KingJumpsValid(g, p, piece, visited, n - 1);
      KingScanValid(g, p, piece, visited, Directions()[n - 1], 1, 0);
      JumpsSoundAppend(g, p, KingJumpsUpTo(g, p, piece, visited, n - 1, true),
                       KingScan(g, p, piece, visited, Directions()[n - 1], 1, 0, true));
    }
  }

  /** Every jump the fixed scan finds captures an enemy lying strictly
      between the start and an empty landing square on one diagonal, with
      only empty squares passed over otherwise. */
  lemma JumpsOverOneEnemy(g: Grid, p: Pos, visited: set<Pos>)
    requires ValidGrid(g) && OnBoard(p)
    ensures forall j :: j in Jumps(g, p, visited, true) ==> ValidJump(g, p, j) && OverOneEnemy(g, p, j)
  {
    var piece := Get(g, p);
    if IsKing(piece) {
      KingJumpsValid(g, p, piece, visited, 4);
    } else {
      ManJumpsValid(g, p, piece, 4);
    }
  }

  /** The jumps found from p, all valid. */
  predicate AllValid(g: Grid, p: Pos, js: seq<Jump>)
    requires ValidGrid(g)
  {
    forall i :: 0 <= i < |js| ==> ValidJump(g, p, js[i])
  }

  lemma JumpsValid(g: Grid, p: Pos, visited: set<Pos>)
    requires ValidGrid(g) && OnBoard(p)
    ensures AllValid(g, p, Jumps(g, p, visited, true))
  {
    JumpsOverOneEnemy(g, p, visited);
    var js := Jumps(g, p, visited, true);
    assert forall i :: 0 <= i < |js| ==> js[i] in js;
  }

  // ------------------------------------------------------- the search

  /** The chains findCapturePathsRecursive adds to allPaths for the piece
      on p, reached by `path`: one per way of continuing, in the order the
      jumps are found; the path itself once it has captured and no jump is
      left. */
  function Paths(g: Grid, p: Pos, path: Move, visited: set<Pos>): seq<Move>
    requires ValidGrid(g) && OnBoard(p)
    decreases Enemies(g, Get(g, p)), 2, 0
  {
    var js := Jumps(g, p, visited, true);
    JumpsValid(g, p, visited);
    Explore(g, p, path, visited, js) + (if |js| == 0 && CountCaptures(path) > 0 then [path] else [])
  }

  /** The chains of the jumps js, one jump after another. */
  function Explore(g: Grid, p: Pos, path: Move, visited: set<Pos>, js: seq<Jump>): seq<Move>
    requires ValidGrid(g) && OnBoard(p) && AllValid(g, p, js)
    decreases Enemies(g, Get(g, p)), 1, |js|
  {
    if |js| == 0 then []
    else Explore(g, p, path, visited, js[..|js| - 1]) + Branch(g, p, path, visited, js[|js| - 1])
  }

  /** The chains through one jump: a man crowned on landing stops there;
      otherwise the search goes on from the landing square on the board
      after the jump, with the captured square visited. */
  function Branch(g: Grid, p: Pos, path: Move, visited: set<Pos>, j: Jump): seq<Move>
    requires ValidGrid(g) && ValidJump(g, p, j)
    decreases Enemies(g, Get(g, p)), 0, 0
  {
    var nextPath := path + [j.dest];
    if Promotes(Get(g, p), j.dest.r) then [nextPath]
    else
      JumpShrinksEnemies(g, p, j);
      Paths(NextBoard(g, p, j), j.dest, nextPath, visited + {j.captured})
  }

  /** One more jump of the list adds its own chains at the end. */
  lemma ExploreStep(g: Grid, p: Pos, path: Move, visited: set<Pos>, js: seq<Jump>, i: int)
    requires ValidGrid(g) && OnBoard(p) && AllValid(g, p, js) && 0 <= i < |js|
    ensures ValidJump(g, p, js[i])
    ensures Explore(g, p, path, visited, js[..i + 1])
      == Explore(g, p, path, visited, js[..i]) + Branch(g, p, path, visited, js[i])
  {
    assert js[..i + 1][..i] == js[..i];
  }

  /** The loop of the king branch of possibleJumps as a function of its
      variables: the square reached, the enemy passed over (row -1 while
      none has been) and the jumps found so far. */
  function ScanFrom(g: Grid, piece: int, visited: set<Pos>, d: Dir, tempR: int, tempC: int,
                    opponentR: int, opponentC: int, found: seq<Jump>): seq<Jump>
    requires ValidGrid(g) && IsDir(d)
    decreases if d.dr < 0 then tempR + 1 else Size - tempR
  {
    if !InBounds(tempR, tempC) then found
    else if IsOpponent(piece, g[tempR][tempC]) && Pos(tempR, tempC) !in visited then
      (if opponentR == -1 then ScanFrom(g, piece, visited, d, tempR + d.dr, tempC + d.dc, tempR, tempC, found)
       else found)
    else if g[tempR][tempC] != Empty then found
    else ScanFrom(g, piece, visited, d, tempR + d.dr, tempC + d.dc, opponentR, opponentC,
                  if opponentR != -1 then found + [Jump(Pos(tempR, tempC), Pos(opponentR, opponentC))] else found)
  }

  /** The loop's state at the k-th square along d, with the enemy at step opp
      passed over (none when opp is 0, and then the enemy row is -1). */
  predicate ScanState(g: Grid, p: Pos, d: Dir, k: int, opp: int,
                      tempR: int, tempC: int, opponentR: int, opponentC: int)
  {
    ValidGrid(g) && OnBoard(p) && IsDir(d) && 1 <= k && 0 <= opp < k &&
    Pos(tempR, tempC) == Along(p, d, k) &&
    (opp == 0 ==> opponentR == -1 && opponentC == -1) &&
    (opp != 0 ==> Pos(opponentR, opponentC) == Along(p, d, opp) && OnBoard(Along(p, d, opp)))
  }

  /** From any state the loop adds the fixed scan's jumps to those found so
      far. */
  lemma {:induction false} ScanFromKingScan(g: Grid, p: Pos, piece: int, visited: set<Pos>, d: Dir, k: int, opp: int,
                                            tempR: int, tempC: int, opponentR: int, opponentC: int, found: seq<Jump>)
    requires ScanState(g, p, d, k, opp, tempR, tempC, opponentR, opponentC)
    ensures ScanFrom(g, piece, visited, d, tempR, tempC, opponentR, opponentC, found)
      == found + KingScan(g, p, piece, visited, d, k, opp, true)
    decreases Size - k, 1
  {
    if !InBounds(tempR, tempC) {
      ScanFromStops(g, p, piece, visited, d, k, opp, tempR, tempC, opponentR, opponentC, found);
    } else if IsOpponent(piece, g[tempR][tempC]) && Pos(tempR, tempC) !in visited {
      if opp == 0 {
        ScanFromEnemy(g, p, piece, visited, d, k, tempR, tempC, opponentR, opponentC, found);
      } else {
        ScanFromStops(g, p, piece, visited, d, k, opp, tempR, tempC, opponentR, opponentC, found);
      }
    } else if g[tempR][tempC] != Empty {
      ScanFromStops(g, p, piece, visited, d, k, opp, tempR, tempC, opponentR, opponentC, found);
    } else if opp != 0 {
      ScanFromLands(g, p, piece, visited, d, k, opp, tempR, tempC, opponentR, opponentC, found);
    } else {
      ScanFromPasses(g, p, piece, visited, d, k, tempR, tempC, opponentR, opponentC, found);
    }
  }

  /** The edge of the board, a second enemy or any other piece ends both. */
  lemma ScanFromStops(g: Grid, p: Pos, piece: int, visited: set<Pos>, d: Dir, k: int, opp: int,
                      tempR: int, tempC: int, opponentR: int, opponentC: int, found: seq<Jump>)
    requires ScanState(g, p, d, k, opp, tempR, tempC, opponentR, opponentC)
    requires var q := Pos(tempR, tempC);
      !OnBoard(q) || if IsOpponent(piece, Get(g, q)) && q !in visited then opp != 0 else Get(g, q) != Empty
    ensures ScanFrom(g, piece, visited, d, tempR, tempC, opponentR, opponentC, found)
      == found + KingScan(g, p, piece, visited, d, k, opp, true)
  {
    assert KingScan(g, p, piece, visited, d, k, opp, true) == [];
    assert found + [] == found;
  }

  /** The first unvisited enemy is passed over by both. */
  lemma {:induction false} ScanFromEnemy(g: Grid, p: Pos, piece: int, visited: set<Pos>, d: Dir, k: int,
                                         tempR: int, tempC: int, opponentR: int, opponentC: int, found: seq<Jump>)
    requires ScanState(g, p, d, k, 0, tempR, tempC, opponentR, opponentC)
    requires var q := Pos(tempR, tempC); OnBoard(q) && IsOpponent(piece, Get(g, q)) && q !in visited
    ensures ScanFrom(g, piece, visited, d, tempR, tempC, opponentR, opponentC, found)
      == found + KingScan(g, p, piece, visited, d, k, 0, true)
    decreases Size - k, 0
  {
    ScanStateNext(g, p, d, k, 0, tempR, tempC, opponentR, opponentC);
    ScanFromKingScan(g, p, piece, visited, d, k + 1, k, tempR + d.dr, tempC + d.dc, tempR, tempC, found);
    EnemyStep(g, p, piece, visited, d, k, tempR, tempC, opponentR, opponentC, found);
  }

  /** The first enemy, as both scans take it: remembered, then passed. */
  lemma EnemyStep(g: Grid, p: Pos, piece: int, visited: set<Pos>, d: Dir, k: int,
                  tempR: int, tempC: int, opponentR: int, opponentC: int, found: seq<Jump>)
    requires ScanState(g, p, d, k, 0, tempR, tempC, opponentR, opponentC)
    requires var q := Pos(tempR, tempC); OnBoard(q) && IsOpponent(piece, Get(g, q)) && q !in visited
    ensures k < Size
    ensures ScanFrom(g, piece, visited, d, tempR, tempC, opponentR, opponentC, found)
      == ScanFrom(g, piece, visited, d, tempR + d.dr, tempC + d.dc, tempR, tempC, found)
    ensures KingScan(g, p, piece, visited, d, k, 0, true) == KingScan(g, p, piece, visited, d, k + 1, k, true)
  {
    ScanStateNext(g, p, d, k, 0, tempR, tempC, opponentR, opponentC);
  }

  /** One step along d keeps the loop's state, with the same enemy or with
      the current square as the enemy. */
  lemma ScanStateNext(g: Grid, p: Pos, d: Dir, k: int, opp: int,
                      tempR: int, tempC: int, opponentR: int, opponentC: int)
    requires ScanState(g, p, d, k, opp, tempR, tempC, opponentR, opponentC) && InBounds(tempR, tempC)
    ensures k < Size
    ensures ScanState(g, p, d, k + 1, opp, tempR + d.dr, tempC + d.dc, opponentR, opponentC)
    ensures ScanState(g, p, d, k + 1, k, tempR + d.dr, tempC + d.dc, tempR, tempC)
  {
    AlongNext(p, d, k);
  }

  /** An empty square beyond the enemy is a landing square for both. */
  lemma {:induction false} ScanFromLands(g: Grid, p: Pos, piece: int, visited: set<Pos>, d: Dir, k: int, opp: int,
                                         tempR: int, tempC: int, opponentR: int, opponentC: int, found: seq<Jump>)
    requires ScanState(g, p, d, k, opp, tempR, tempC, opponentR, opponentC) && opp != 0
    requires InBounds(tempR, tempC) && g[tempR][tempC] == Empty
    ensures ScanFrom(g, piece, visited, d, tempR, tempC, opponentR, opponentC, found)
      == found + KingScan(g, p, piece, visited, d, k, opp, true)
    decreases Size - k, 0
  {
    ScanStateNext(g, p, d, k, opp, tempR, tempC, opponentR, opponentC);
    var rest := KingScan(g, p, piece, visited, d, k + 1, opp, true);
    var jump := [Jump(Pos(tempR, tempC), Pos(opponentR, opponentC))];
    ScanFromKingScan(g, p, piece, visited, d, k + 1, opp, tempR + d.dr, tempC + d.dc, opponentR, opponentC, found + jump);
    LandStep(g, p, piece, visited, d, k, opp, tempR, tempC, opponentR, opponentC, found);
    Regroup(ScanFrom(g, piece, visited, d, tempR, tempC, opponentR, opponentC, found),
            ScanFrom(g, piece, visited, d, tempR + d.dr, tempC + d.dc, opponentR, opponentC, found + jump),
            found, jump, rest, KingScan(g, p, piece, visited, d, k, opp, true));
  }

  /** x is y, y is found + jump + rest, and ks is jump + rest: x is found + ks. */
  lemma Regroup<T>(x: seq<T>, y: seq<T>, found: seq<T>, jump: seq<T>, rest: seq<T>, ks: seq<T>)
    requires x == y && y == found + jump + rest && ks == jump + rest
    ensures x == found + ks
  {
    AppendAssoc(found, jump, rest);
  }

  /** One landing square, as both scans take it: the loop records the jump
      and moves on, the fixed scan puts the jump before the rest. */
  lemma LandStep(g: Grid, p: Pos, piece: int, visited: set<Pos>, d: Dir, k: int, opp: int,
                 tempR: int, tempC: int, opponentR: int, opponentC: int, found: seq<Jump>)
    requires ScanState(g, p, d, k, opp, tempR, tempC, opponentR, opponentC) && opp != 0
    requires InBounds(tempR, tempC) && g[tempR][tempC] == Empty
    ensures k < Size
    ensures ScanFrom(g, piece, visited, d, tempR, tempC, opponentR, opponentC, found)
      == ScanFrom(g, piece, visited, d, tempR + d.dr, tempC + d.dc, opponentR, opponentC,
                  found + [Jump(Pos(tempR, tempC), Pos(opponentR, opponentC))])
    ensures KingScan(g, p, piece, visited, d, k, opp, true)
      == [Jump(Pos(tempR, tempC), Pos(opponentR, opponentC))] + KingScan(g, p, piece, visited, d, k + 1, opp, true)
  {
    ScanStateNext(g, p, d, k, opp, tempR, tempC, opponentR, opponentC);
  }

  /** An empty square before any enemy is passed over by both. */
  lemma {:induction false} ScanFromPasses(g: Grid, p: Pos, piece: int, visited: set<Pos>, d: Dir, k: int,
                                          tempR: int, tempC: int, opponentR: int, opponentC: int, found: seq<Jump>)
    requires ScanState(g, p, d, k, 0, tempR, tempC, opponentR, opponentC)
    requires InBounds(tempR, tempC) && g[tempR][tempC] == Empty
    ensures ScanFrom(g, piece, visited, d, tempR, tempC, opponentR, opponentC, found)
      == found + KingScan(g, p, piece, visited, d, k, 0, true)
    decreases Size - k, 0
  {
    ScanStateNext(g, p, d, k, 0, tempR, tempC, opponentR, opponentC);
    ScanFromKingScan(g, p, piece, visited, d, k + 1, 0, tempR + d.dr, tempC + d.dc, opponentR, opponentC, found);
    PassStep(g, p, piece, visited, d, k, tempR, tempC, opponentR, opponentC, found);
  }

  /** An empty square before any enemy, as both scans take it: passed. */
  lemma PassStep(g: Grid, p: Pos, piece: int, visited: set<Pos>, d: Dir, k: int,
                 tempR: int, tempC: int, opponentR: int, opponentC: int, found: seq<Jump>)
    requires ScanState(g, p, d, k, 0, tempR, tempC, opponentR, opponentC)
    requires InBounds(tempR, tempC) && g[tempR][tempC] == Empty
    ensures k < Size
    ensures ScanFrom(g, piece, visited, d, tempR, tempC, opponentR, opponentC, found)
      == ScanFrom(g, piece, visited, d, tempR + d.dr, tempC + d.dc, opponentR, opponentC, found)
    ensures KingScan(g, p, piece, visited, d, k, 0, true) == KingScan(g, p, piece, visited, d, k + 1, 0, true)
  {
    ScanStateNext(g, p, d, k, 0, tempR, tempC, opponentR, opponentC);
    assert KingScan(g, p, piece, visited, d, k, 0, true) == [] + KingScan(g, p, piece, visited, d, k + 1, 0, true);
  }

  /** The king branch of possibleJumps for one direction: walks from the
      neighbouring square while on the board. */
  method ScanDirection(g: Grid, p: Pos, piece: int, visited: set<Pos>, d: Dir) returns (found: seq<Jump>)
    requires ValidGrid(g) && OnBoard(p) && IsDir(d)
    ensures found == KingScan(g, p, piece, visited, d, 1, 0, true)
  {
    found := [];
    var tempR, tempC := p.r + d.dr, p.c + d.dc;
    var opponentR, opponentC := -1, -1;
    ghost var all := ScanFrom(g, piece, visited, d, tempR, tempC, opponentR, opponentC, found);
    while InBounds(tempR, tempC)
      invariant ScanFrom(g, piece, visited, d, tempR, tempC, opponentR, opponentC, found) == all
      decreases if d.dr < 0 then tempR + 1 else Size - tempR
    {
      ScanFromStep(g, piece, visited, d, tempR, tempC, opponentR, opponentC, found);
      if IsOpponent(piece, g[tempR][tempC]) && Pos(tempR, tempC) !in visited {
        if opponentR == -1 {
          opponentR, opponentC := tempR, tempC;
        } else {
          break;
        }
      } else if g[tempR][tempC] != Empty {
        break;
      }
      if opponentR != -1 && g[tempR][tempC] == Empty {
        found := found + [Jump(Pos(tempR, tempC), Pos(opponentR, opponentC))];
      }
      tempR, tempC := tempR + d.dr, tempC + d.dc;
    }
    ScanFromStart(g, p, piece, visited, d);
  }

  /** One square of the loop, as the scan takes it. */
  lemma ScanFromStep(g: Grid, piece: int, visited: set<Pos>, d: Dir, tempR: int, tempC: int,
                     opponentR: int, opponentC: int, found: seq<Jump>)
    requires ValidGrid(g) && IsDir(d) && InBounds(tempR, tempC)
    ensures var x := g[tempR][tempC];
      var all := ScanFrom(g, piece, visited, d, tempR, tempC, opponentR, opponentC, found);
      if IsOpponent(piece, x) && Pos(tempR, tempC) !in visited then
        x != Empty &&
        all == if opponentR == -1 then ScanFrom(g, piece, visited, d, tempR + d.dr, tempC + d.dc, tempR, tempC, found)
               else found
      else if x != Empty then all == found
      else all == ScanFrom(g, piece, visited, d, tempR + d.dr, tempC + d.dc, opponentR, opponentC,
                           if opponentR != -1 then found + [Jump(Pos(tempR, tempC), Pos(opponentR, opponentC))] else found)
  {
  }

  /** The loop started on the neighbouring square with no enemy passed and
      nothing found computes the fixed scan. */
  lemma ScanFromStart(g: Grid, p: Pos, piece: int, visited: set<Pos>, d: Dir)
    requires ValidGrid(g) && OnBoard(p) && IsDir(d)
    ensures ScanFrom(g, piece, visited, d, p.r + d.dr, p.c + d.dc, -1, -1, []) == KingScan(g, p, piece, visited, d, 1, 0, true)
  {
    assert Along(p, d, 1) == Pos(p.r + d.dr, p.c + d.dc);
    assert ScanState(g, p, d, 1, 0, p.r + d.dr, p.c + d.dc, -1, -1);
    ScanFromKingScan(g, p, piece, visited, d, 1, 0, p.r + d.dr, p.c + d.dc, -1, -1, []);
    assert [] + KingScan(g, p, piece, visited, d, 1, 0, true) == KingScan(g, p, piece, visited, d, 1, 0, true);
  }

  /** possibleJumps of findCapturePathsRecursive, with the king's captured
      square recorded as the enemy's own square. */
  method PossibleJumps(g: Grid, p: Pos, visited: set<Pos>) returns (possibleJumps: seq<Jump>)
    requires ValidGrid(g) && OnBoard(p)
    ensures possibleJumps == Jumps(g, p, visited, true)
  {
    var piece := g[p.r][p.c];
    possibleJumps := [];
    if IsKing(piece) {
      for i := 0 to 4
        invariant possibleJumps == KingJumpsUpTo(g, p, piece, visited, i, true)
      {
        var found := ScanDirection(g, p, piece, visited, Directions()[i]);
        possibleJumps := possibleJumps + found;
      }
    } else {
      for i := 0 to 4
        invariant possibleJumps == ManJumpsUpTo(g, p, piece, i)
      {
        var d := Directions()[i];
        var opponentR, opponentC := p.r + d.dr, p.c + d.dc;
        var destR, destC := p.r + 2 * d.dr, p.c + 2 * d.dc;
        assert Pos(opponentR, opponentC) == Along(p, d, 1) && Pos(destR, destC) == Along(p, d, 2);
        if InBounds(destR, destC) && g[destR][destC] == Empty && IsOpponent(piece, g[opponentR][opponentC]) {
          possibleJumps := possibleJumps + [Jump(Pos(destR, destC), Pos(opponentR, opponentC))];
        }
      }
    }
  }

  /** findCapturePathsRecursive: appends to allPaths every chain of the
      piece on p continuing currentPath. */
  method FindCapturePathsRecursive(g: Grid, p: Pos, currentPath: Move, allPaths: seq<Move>, visited: set<Pos>)
    returns (out: seq<Move>)
    requires ValidGrid(g) && OnBoard(p)
    ensures out == allPaths + Paths(g, p, currentPath, visited)
    decreases Enemies(g, Get(g, p)), 1
  {
    var possibleJumps := PossibleJumps(g, p, visited);
    JumpsValid(g, p, visited);
    out := allPaths;
    var foundNextJump := false;
    for i := 0 to |possibleJumps|
      invariant out == allPaths + Explore(g, p, currentPath, visited, possibleJumps[..i])
      invariant foundNextJump == (i > 0)
    {
      foundNextJump := true;
      ghost var before := out;
      out := FollowJump(g, p, currentPath, out, visited, possibleJumps, i);
      ExploreMore(g, p, currentPath, visited, possibleJumps, i, allPaths, before, out);
    }
    ghost var explored := out;
    if !foundNextJump && CountCaptures(currentPath) > 0 {
      out := out + [currentPath];
    }
    PathsDone(g, p, currentPath, visited, possibleJumps, allPaths, explored, out);
  }

  /** One more jump explored adds its chains after those of the jumps before. */
  lemma ExploreMore(g: Grid, p: Pos, path: Move, visited: set<Pos>, js: seq<Jump>, i: int,
                    allPaths: seq<Move>, before: seq<Move>, after: seq<Move>)
    requires ValidGrid(g) && OnBoard(p) && AllValid(g, p, js) && 0 <= i < |js|
    requires before == allPaths + Explore(g, p, path, visited, js[..i])
    requires after == before + Branch(g, p, path, visited, js[i])
    ensures after == allPaths + Explore(g, p, path, visited, js[..i + 1])
  {
    ExploreStep(g, p, path, visited, js, i);
    AppendAssoc(allPaths, Explore(g, p, path, visited, js[..i]), Branch(g, p, path, visited, js[i]));
  }

  /** Once every jump is explored, the path itself is added when it has
      captured and no jump was found: that is all of Paths. */
  lemma PathsDone(g: Grid, p: Pos, path: Move, visited: set<Pos>, js: seq<Jump>,
                  allPaths: seq<Move>, explored: seq<Move>, out: seq<Move>)
    requires ValidGrid(g) && OnBoard(p) && js == Jumps(g, p, visited, true) && AllValid(g, p, js)
    requires explored == allPaths + Explore(g, p, path, visited, js[..|js|])
    requires out == if |js| == 0 && CountCaptures(path) > 0 then explored + [path] else explored
    ensures out == allPaths + Paths(g, p, path, visited)
  {
    assert js[..|js|] == js;
  }

  /** The body of findCapturePathsRecursive's loop for one jump: the chain
      ends on a crowning square, otherwise the search goes on from the
      landing square on the board after the jump. */
  method FollowJump(g: Grid, p: Pos, currentPath: Move, allPaths: seq<Move>, visited: set<Pos>, js: seq<Jump>, i: int)
    returns (out: seq<Move>)
    requires ValidGrid(g) && OnBoard(p) && AllValid(g, p, js) && 0 <= i < |js|
    ensures ValidJump(g, p, js[i])
    ensures out == allPaths + Branch(g, p, currentPath, visited, js[i])
    decreases Enemies(g, Get(g, p)), 0
  {
    var jump := js[i];
    var piece := g[p.r][p.c];
    var nextBoard := Set(Set(Set(g, jump.dest, piece), p, Empty), jump.captured, Empty);
    var nextPath := currentPath + [jump.dest];
    var promotionOccurred := !IsKing(piece) && ((IsWhitePiece(piece) && jump.dest.r == 0) || (IsBlackPiece(piece) && jump.dest.r == Size - 1));
    if promotionOccurred {
      out := allPaths + [nextPath];
    } else {
      JumpShrinksEnemies(g, p, jump);
      out := FindCapturePathsRecursive(nextBoard, jump.dest, nextPath, allPaths, visited + {jump.captured});
    }
  }

  // --------------------------------------------------- chain properties

  /** m continues path by captures only: it keeps path as its prefix, every
      added step is a capture step onto the board, and no added square
      before the last crowns the piece. */
  predicate Extends(path: Move, m: Move, piece: int)
  {
    |path| <= |m| && m[..|path|] == path &&
    CountCaptures(m) == CountCaptures(path) + (|m| - |path|) &&
    (forall i :: |path| <= i < |m| ==> OnBoard(m[i])) &&
    (forall i :: |path| <= i < |m| - 1 ==> !Promotes(piece, m[i].r))
  }

  lemma ExtendsByJump(path: Move, x: Pos, m: Move, piece: int)
    requires |path| >= 1 && OnBoard(x) && IsJumpStep(path[|path| - 1], x) && !Promotes(piece, x.r)
    requires Extends(path + [x], m, piece)
    ensures Extends(path, m, piece)
  {
    CountCapturesAppend(path, x);
    assert m[..|path|] == (path + [x])[..|path|];
    assert m[|path|] == x;
  }

  lemma {:induction false} PathsExtend(g: Grid, p: Pos, path: Move, visited: set<Pos>)
    requires ValidGrid(g) && OnBoard(p) && |path| >= 1 && path[|path| - 1] == p
    ensures forall m :: m in Paths(g, p, path, visited) ==> Extends(path, m, Get(g, p)) && CountCaptures(m) >= 1
    decreases Enemies(g, Get(g, p)), 2, 0
  {
    var js := Jumps(g, p, visited, true);
    JumpsValid(g, p, visited);
    ExploreExtend(g, p, path, visited, js);
    assert path[..|path|] == path;
  }

  lemma {:induction false} ExploreExtend(g: Grid, p: Pos, path: Move, visited: set<Pos>, js: seq<Jump>)
    requires ValidGrid(g) && OnBoard(p) && AllValid(g, p, js) && |path| >= 1 && path[|path| - 1] == p
    ensures forall m :: m in Explore(g, p, path, visited, js) ==> Extends(path, m, Get(g, p)) && CountCaptures(m) >= 1
    decreases Enemies(g, Get(g, p)), 1, |js|
  {
    if |js| > 0 {
      ExploreExtend(g, p, path, visited, js[..|js| - 1]);
      BranchExtend(g, p, path, visited, js[|js| - 1]);
    }
  }

  lemma {:induction false} BranchExtend(g: Grid, p: Pos, path: Move, visited: set<Pos>, j: Jump)
    requires ValidGrid(g) && ValidJump(g, p, j) && |path| >= 1 && path[|path| - 1] == p
    ensures forall m :: m in Branch(g, p, path, visited, j) ==> Extends(path, m, Get(g, p)) && CountCaptures(m) >= 1
    decreases Enemies(g, Get(g, p)), 0, 0
  {
    var piece := Get(g, p);
    var nextPath := path + [j.dest];
    CountCapturesAppend(path, j.dest);
    assert nextPath[..|path|] == path;
    if !Promotes(piece, j.dest.r) {
      JumpShrinksEnemies(g, p, j);
      var h := NextBoard(g, p, j);
      PathsExtend(h, j.dest, nextPath, visited + {j.captured});
      forall m | m in Paths(h, j.dest, nextPath, visited + {j.captured})
        ensures Extends(path, m, piece)
      {
        ExtendsByJump(path, j.dest, m, piece);
      }
    }
  }

  /** Every chain found from square p, played by the piece there from the
      start: it begins at p, every step of it is a capture, it captures at
      least once, and a man stops as soon as it is crowned. */
  lemma {:induction false} ChainsFromSquare(g: Grid, p: Pos)
    requires ValidGrid(g) && OnBoard(p)
    ensures forall m: Move :: m in Paths(g, p, [p], {}) ==>
      |m| >= 2 && m[0] == p && CountCaptures(m) == |m| - 1 && ValidPath(m) &&
      forall i :: 1 <= i < |m| - 1 ==> !Promotes(Get(g, p), m[i].r)
  {
    PathsExtend(g, p, [p], {});
    forall m: Move | m in Paths(g, p, [p], {})
      ensures m[0] == p && ValidPath(m)
    {
      assert m[..1] == [p];
    }
  }

  lemma {:induction false} BranchNonEmpty(g: Grid, p: Pos, path: Move, visited: set<Pos>, j: Jump)
    requires ValidGrid(g) && ValidJump(g, p, j) && |path| >= 1 && path[|path| - 1] == p
    ensures |Branch(g, p, path, visited, j)| > 0
    decreases Enemies(g, Get(g, p)), 0, 0
  {
    if !Promotes(Get(g, p), j.dest.r) {
      JumpShrinksEnemies(g, p, j);
      CountCapturesAppend(path, j.dest);
      PathsNonEmpty(NextBoard(g, p, j), j.dest, path + [j.dest], visited + {j.captured});
    }
  }

  /** The search reports something whenever the piece can jump or the path
      already holds a capture. */
  lemma {:induction false} PathsNonEmpty(g: Grid, p: Pos, path: Move, visited: set<Pos>)
    requires ValidGrid(g) && OnBoard(p) && |path| >= 1 && path[|path| - 1] == p
    ensures |Paths(g, p, path, visited)| > 0 <==> |Jumps(g, p, visited, true)| > 0 || CountCaptures(path) > 0
    decreases Enemies(g, Get(g, p)), 2, 0
  {
    var js := Jumps(g, p, visited, true);
    JumpsValid(g, p, visited);
    if |js| > 0 {
      BranchNonEmpty(g, p, path, visited, js[|js| - 1]);
    }
  }

  lemma {:induction false} ExploreHas(g: Grid, p: Pos, path: Move, visited: set<Pos>, js: seq<Jump>, i: int)
    requires ValidGrid(g) && OnBoard(p) && AllValid(g, p, js) && 0 <= i < |js|
    ensures forall m :: m in Branch(g, p, path, visited, js[i]) ==> m in Explore(g, p, path, visited, js)
  {
    if i < |js| - 1 {
      ExploreHas(g, p, path, visited, js[..|js| - 1], i);
    }
  }

  /** No jump is ignored: each one starts at least one reported chain, and
      a jump that crowns a man is reported as the chain's last step. */
  lemma {:induction false} EveryJumpExplored(g: Grid, p: Pos, path: Move, visited: set<Pos>, j: Jump)
    requires ValidGrid(g) && OnBoard(p) && |path| >= 1 && path[|path| - 1] == p
    requires j in Jumps(g, p, visited, true)
    ensures exists m :: m in Paths(g, p, path, visited) && |m| > |path| && m[|path|] == j.dest
    ensures Promotes(Get(g, p), j.dest.r) ==> path + [j.dest] in Paths(g, p, path, visited)
  {
    var js := Jumps(g, p, visited, true);
    JumpsValid(g, p, visited);
    var i :| 0 <= i < |js| && js[i] == j;
    var b := Branch(g, p, path, visited, j);
    BranchInPaths(g, p, path, visited, i);
    BranchNonEmpty(g, p, path, visited, j);
    BranchExtend(g, p, path, visited, j);
    var m := b[0];
    assert m in b;
    assert Extends(path, m, Get(g, p));
    if Promotes(Get(g, p), j.dest.r) {
      assert b == [path + [j.dest]];
    } else {
      FirstStep(g, p, path, visited, j, m);
    }
  }

  lemma {:induction false} BranchInPaths(g: Grid, p: Pos, path: Move, visited: set<Pos>, i: int)
    requires ValidGrid(g) && OnBoard(p)
    requires 0 <= i < |Jumps(g, p, visited, true)|
    ensures AllValid(g, p, Jumps(g, p, visited, true))
    ensures forall m :: m in Branch(g, p, path, visited, Jumps(g, p, visited, true)[i]) ==> m in Paths(g, p, path, visited)
  {
    var js := Jumps(g, p, visited, true);
    JumpsValid(g, p, visited);
    ExploreHas(g, p, path, visited, js, i);
  }

  /** A chain through a jump that does not crown goes to its landing square
      first. */
  lemma {:induction false} FirstStep(g: Grid, p: Pos, path: Move, visited: set<Pos>, j: Jump, m: Move)
    requires ValidGrid(g) && ValidJump(g, p, j) && |path| >= 1 && path[|path| - 1] == p
    requires !Promotes(Get(g, p), j.dest.r)
    requires m in Branch(g, p, path, visited, j)
    ensures |m| > |path| && m[|path|] == j.dest
  {
    var nextPath := path + [j.dest];
    JumpShrinksEnemies(g, p, j);
    var h := NextBoard(g, p, j);
    assert m in Paths(h, j.dest, nextPath, visited + {j.captured});
    PathsExtend(h, j.dest, nextPath, visited + {j.captured});
    assert Extends(nextPath, m, Get(h, j.dest));
    assert m[..|nextPath|] == nextPath;
    assert m[|path|] == m[..|nextPath|][|path|];
  }
}
