/** The capture search of GameView exactly as written: the king's jump
    records its captured square as (opponentR, (r + tempR) / 2)
    (GameView.java:922), which is not the enemy's square. The enemy then
    stays on the copied board and is never marked visited, so from some
    positions a king jumps back and forth over it forever and the recursion
    does not return (KingSearchDiverges shows one). The
    search is modelled with a bound on the recursion depth: None means the
    search has not returned within that depth. */
module CapturesAsWritten {
  import opened Board
  import opened Moves
  import opened Captures
  import opened JavaText

  /** A jump whose landing square and recorded captured square are both on
      the board, so that the next board can be built. */
  predicate Landable(j: Jump) { OnBoard(j.dest) && OnBoard(j.captured) }

  predicate AllLandable(js: seq<Jump>)
  {
    forall i :: 0 <= i < |js| ==> Landable(js[i])
  }

  lemma {:induction false} KingScanLandable(g: Grid, p: Pos, piece: int, visited: set<Pos>, d: Dir, k: int, opp: int, fixed: bool)
    requires ValidGrid(g) && OnBoard(p) && IsDir(d) && 1 <= k && 0 <= opp < k
    requires opp != 0 ==> OnBoard(Along(p, d, opp))
    ensures AllLandable(KingScan(g, p, piece, visited, d, k, opp, fixed))
    decreases Size - k
  {
    var q := Along(p, d, k);
    if !OnBoard(q) {
    } else if IsOpponent(piece, Get(g, q)) && q !in visited {
      if opp == 0 {
        KingScanLandable(g, p, piece, visited, d, k + 1, k, fixed);
      }
    } else if Get(g, q) != Empty {
    } else {
      KingScanLandable(g, p, piece, visited, d, k + 1, opp, fixed);
    }
  }

  lemma {:induction false} KingJumpsLandable(g: Grid, p: Pos, piece: int, visited: set<Pos>, n: int, fixed: bool)
    requires ValidGrid(g) && OnBoard(p) && 0 <= n <= 4
    ensures AllLandable(KingJumpsUpTo(g, p, piece, visited, n, fixed))
  {
    if n > 0 {
      KingJumpsLandable(g, p, piece, visited, n - 1, fixed);
      KingScanLandable(g, p, piece, visited, Directions()[n - 1], 1, 0, fixed);
    }
  }

  lemma {:induction false} ManJumpsLandable(g: Grid, p: Pos, piece: int, n: int)
    requires ValidGrid(g) && OnBoard(p) && 0 <= n <= 4
    ensures AllLandable(ManJumpsUpTo(g, p, piece, n))
  {
    if n > 0 {
      ManJumpsLandable(g, p, piece, n - 1);
    }
  }

  /** Whichever way the captured square is recorded, it and the landing
      square are on the board. */
  lemma JumpsLandable(g: Grid, p: Pos, visited: set<Pos>, fixed: bool)
    requires ValidGrid(g) && OnBoard(p)
    ensures AllLandable(Jumps(g, p, visited, fixed))
  {
    if IsKing(Get(g, p)) {
      KingJumpsLandable(g, p, Get(g, p), visited, 4, fixed);
    } else {
      ManJumpsLandable(g, p, Get(g, p), 4);
    }
  }

  /** findCapturePathsRecursive as written, allowed `fuel` nested calls:
      Some(the chains it adds), or None when it is still recursing at that
      depth. */
  function Search(g: Grid, p: Pos, path: Move, visited: set<Pos>, fuel: nat): (r: Option<seq<Move>>)
    requires ValidGrid(g) && OnBoard(p)
    ensures fuel == 0 ==> r.None?
    ensures r.Some? && |Jumps(g, p, visited, false)| == 0 ==>
      r.value == (if CountCaptures(path) > 0 then [path] else [])
    decreases fuel, 2, 0
  {
    if fuel == 0 then None
    else
      var js := Jumps(g, p, visited, false);
      JumpsLandable(g, p, visited, false);
      match SearchJumps(g, p, path, visited, js, fuel)
      case None => None
      case Some(found) => Some(found + (if |js| == 0 && CountCaptures(path) > 0 then [path] else []))
  }

  function SearchJumps(g: Grid, p: Pos, path: Move, visited: set<Pos>, js: seq<Jump>, fuel: nat): Option<seq<Move>>
    requires ValidGrid(g) && OnBoard(p) && AllLandable(js) && fuel >= 1
    decreases fuel, 1, |js|
  {
    if |js| == 0 then Some([])
    else
      match SearchJumps(g, p, path, visited, js[..|js| - 1], fuel)
      case None => None
      case Some(before) =>
        match SearchJump(g, p, path, visited, js[|js| - 1], fuel)
        case None => None
        case Some(after) => Some(before + after)
  }

  function SearchJump(g: Grid, p: Pos, path: Move, visited: set<Pos>, j: Jump, fuel: nat): Option<seq<Move>>
    requires ValidGrid(g) && OnBoard(p) && Landable(j) && fuel >= 1
    decreases fuel, 0, 0
  {
    var nextPath := path + [j.dest];
    if Promotes(Get(g, p), j.dest.r) then Some([nextPath])
    else Search(NextBoard(g, p, j), j.dest, nextPath, visited + {j.captured}, fuel - 1)
  }

  // ------------------------------------------------- men are unaffected

  /** A strict subset has fewer elements. */
  lemma StrictSubsetSmaller<T>(a: set<T>, b: set<T>)
    requires a < b
    ensures |a| < |b|
  {
    assert exists y :: y in b && y !in a;
    var x :| x in b && x !in a;
    var c := b - {x};
    assert |c| == |b| - 1;
    assert a <= c;
    assert |c| == |a| + |c - a| by {
      assert c == a + (c - a);
    }
  }

  /** For a man the search as written is the fixed search: with more nested
      calls allowed than there are enemies on the board it returns, and it
      returns the same chains. */
  lemma {:induction false} MenSearch(g: Grid, p: Pos, path: Move, visited: set<Pos>, fuel: nat)
    requires ValidGrid(g) && OnBoard(p) && !IsKing(Get(g, p))
    requires fuel > |Enemies(g, Get(g, p))|
    ensures Search(g, p, path, visited, fuel) == Some(Paths(g, p, path, visited))
    decreases fuel, 2, 0
  {
    var js := Jumps(g, p, visited, false);
    assert js == Jumps(g, p, visited, true);
    JumpsValid(g, p, visited);
    JumpsLandable(g, p, visited, false);
    MenSearchJumps(g, p, path, visited, js, fuel);
  }

  lemma {:induction false} MenSearchJumps(g: Grid, p: Pos, path: Move, visited: set<Pos>, js: seq<Jump>, fuel: nat)
    requires ValidGrid(g) && OnBoard(p) && !IsKing(Get(g, p)) && AllLandable(js) && AllValid(g, p, js)
    requires fuel > |Enemies(g, Get(g, p))|
    ensures SearchJumps(g, p, path, visited, js, fuel) == Some(Explore(g, p, path, visited, js))
    decreases fuel, 1, |js|
  {
    if |js| > 0 {
      MenSearchJumps(g, p, path, visited, js[..|js| - 1], fuel);
      MenSearchJump(g, p, path, visited, js[|js| - 1], fuel);
    }
  }

  lemma {:induction false} MenSearchJump(g: Grid, p: Pos, path: Move, visited: set<Pos>, j: Jump, fuel: nat)
    requires ValidGrid(g) && OnBoard(p) && !IsKing(Get(g, p)) && Landable(j) && ValidJump(g, p, j)
    requires fuel > |Enemies(g, Get(g, p))|
    ensures SearchJump(g, p, path, visited, j, fuel) == Some(Branch(g, p, path, visited, j))
    decreases fuel, 0, 0
  {
    if !Promotes(Get(g, p), j.dest.r) {
      JumpShrinksEnemies(g, p, j);
      StrictSubsetSmaller(Enemies(NextBoard(g, p, j), Get(g, p)), Enemies(g, Get(g, p)));
      MenSearch(NextBoard(g, p, j), j.dest, path + [j.dest], visited + {j.captured}, fuel - 1);
    }
  }

  // ---------------------------------------------- the king that ping-pongs

  /** A king's jumps are its four scans in table order. */
  lemma KingJumpsFour(g: Grid, p: Pos, visited: set<Pos>, fixed: bool)
    requires ValidGrid(g) && OnBoard(p) && IsKing(Get(g, p))
    ensures Jumps(g, p, visited, fixed) ==
      KingScan(g, p, Get(g, p), visited, Dir(-1, -1), 1, 0, fixed) + KingScan(g, p, Get(g, p), visited, Dir(-1, 1), 1, 0, fixed) +
      KingScan(g, p, Get(g, p), visited, Dir(1, -1), 1, 0, fixed) + KingScan(g, p, Get(g, p), visited, Dir(1, 1), 1, 0, fixed)
  {
    var piece := Get(g, p);
    assert KingJumpsUpTo(g, p, piece, visited, 1, fixed) == KingScan(g, p, piece, visited, Dir(-1, -1), 1, 0, fixed);
    assert KingJumpsUpTo(g, p, piece, visited, 2, fixed) == KingJumpsUpTo(g, p, piece, visited, 1, fixed) + KingScan(g, p, piece, visited, Dir(-1, 1), 1, 0, fixed);
    assert KingJumpsUpTo(g, p, piece, visited, 3, fixed) == KingJumpsUpTo(g, p, piece, visited, 2, fixed) + KingScan(g, p, piece, visited, Dir(1, -1), 1, 0, fixed);
    assert KingJumpsUpTo(g, p, piece, visited, 4, fixed) == KingJumpsUpTo(g, p, piece, visited, 3, fixed) + KingScan(g, p, piece, visited, Dir(1, 1), 1, 0, fixed);
  }

  /** White king on (2,1) next to a black man on (1,2). */
  function PingBoard(): (g: Grid)
    ensures ValidGrid(g)
  {
    Set(Set(EmptyGrid(), Pos(2, 1), WhiteKing), Pos(1, 2), BlackMan)
  }

  /** The same king after jumping to (0,3): the man is still there. */
  function PongBoard(): (g: Grid)
    ensures ValidGrid(g)
  {
    Set(Set(EmptyGrid(), Pos(0, 3), WhiteKing), Pos(1, 2), BlackMan)
  }

  lemma PingJumps(visited: set<Pos>)
    requires Pos(1, 2) !in visited
    ensures Jumps(PingBoard(), Pos(2, 1), visited, false) == [Jump(Pos(0, 3), Pos(1, 1))]
  {
    var g, p := PingBoard(), Pos(2, 1);
    var w := WhiteKing;
    assert Get(g, p) == w;
    KingJumpsFour(g, p, visited, false);
    assert KingScan(g, p, w, visited, Dir(-1, -1), 1, 0, false) == [] by {
      assert Get(g, Pos(1, 0)) == Empty;
    }
    assert KingScan(g, p, w, visited, Dir(-1, 1), 1, 0, false) == [Jump(Pos(0, 3), Pos(1, 1))] by {
      assert Get(g, Pos(1, 2)) == BlackMan;
      assert Get(g, Pos(0, 3)) == Empty;
      assert KingScan(g, p, w, visited, Dir(-1, 1), 3, 1, false) == [];
    }
    assert KingScan(g, p, w, visited, Dir(1, -1), 1, 0, false) == [] by {
      assert Get(g, Pos(3, 0)) == Empty;
    }
    assert KingScan(g, p, w, visited, Dir(1, 1), 1, 0, false) == [] by {
      var d := Dir(1, 1);
      assert Get(g, Pos(7, 6)) == Empty;
      assert KingScan(g, p, w, visited, d, 5, 0, false) == [];
      assert Get(g, Pos(6, 5)) == Empty;
      assert KingScan(g, p, w, visited, d, 4, 0, false) == [];
      assert Get(g, Pos(5, 4)) == Empty;
      assert KingScan(g, p, w, visited, d, 3, 0, false) == [];
      assert Get(g, Pos(4, 3)) == Empty;
      assert KingScan(g, p, w, visited, d, 2, 0, false) == [];
      assert Get(g, Pos(3, 2)) == Empty;
    }
  }

  lemma PongJumps(visited: set<Pos>)
    requires Pos(1, 2) !in visited
    ensures Jumps(PongBoard(), Pos(0, 3), visited, false) == [Jump(Pos(2, 1), Pos(1, 1)), Jump(Pos(3, 0), Pos(1, 1))]
  {
    var g, p := PongBoard(), Pos(0, 3);
    var w := WhiteKing;
    assert Get(g, p) == w;
    KingJumpsFour(g, p, visited, false);
    assert KingScan(g, p, w, visited, Dir(-1, -1), 1, 0, false) == [];
    assert KingScan(g, p, w, visited, Dir(-1, 1), 1, 0, false) == [];
    PongScanBack(visited);
    PongScanOpen(visited);
  }

  /** From Pong's king, down and to the left: over the man on (1, 2), onto
      the two squares behind it. */
  lemma PongScanBack(visited: set<Pos>)
    requires Pos(1, 2) !in visited
    ensures KingScan(PongBoard(), Pos(0, 3), WhiteKing, visited, Dir(1, -1), 1, 0, false) ==
      [Jump(Pos(2, 1), Pos(1, 1)), Jump(Pos(3, 0), Pos(1, 1))]
  {
    var g, p, w, d := PongBoard(), Pos(0, 3), WhiteKing, Dir(1, -1);
    assert Get(g, Pos(1, 2)) == BlackMan;
    assert Get(g, Pos(2, 1)) == Empty;
    assert Get(g, Pos(3, 0)) == Empty;
    assert KingScan(g, p, w, visited, d, 4, 1, false) == [];
    assert KingScan(g, p, w, visited, d, 3, 1, false) == [Jump(Pos(3, 0), Pos(1, 1))];
    assert KingScan(g, p, w, visited, d, 2, 1, false) == [Jump(Pos(2, 1), Pos(1, 1)), Jump(Pos(3, 0), Pos(1, 1))];
  }

  /** From Pong's king, down and to the right: empty squares to the edge. */
  lemma PongScanOpen(visited: set<Pos>)
    ensures KingScan(PongBoard(), Pos(0, 3), WhiteKing, visited, Dir(1, 1), 1, 0, false) == []
  {
    var g, p, w, d := PongBoard(), Pos(0, 3), WhiteKing, Dir(1, 1);
    assert Get(g, Pos(4, 7)) == Empty;
    assert KingScan(g, p, w, visited, d, 4, 0, false) == [];
    assert Get(g, Pos(3, 6)) == Empty;
    assert KingScan(g, p, w, visited, d, 3, 0, false) == [];
    assert Get(g, Pos(2, 5)) == Empty;
    assert KingScan(g, p, w, visited, d, 2, 0, false) == [];
    assert Get(g, Pos(1, 4)) == Empty;
  }

  lemma PingToPong()
    ensures NextBoard(PingBoard(), Pos(2, 1), Jump(Pos(0, 3), Pos(1, 1))) == PongBoard()
  {
    GridExt(NextBoard(PingBoard(), Pos(2, 1), Jump(Pos(0, 3), Pos(1, 1))), PongBoard());
  }

  lemma PongToPing()
    ensures NextBoard(PongBoard(), Pos(0, 3), Jump(Pos(2, 1), Pos(1, 1))) == PingBoard()
  {
    GridExt(NextBoard(PongBoard(), Pos(0, 3), Jump(Pos(2, 1), Pos(1, 1))), PingBoard());
  }

  lemma {:induction false} PingNeverReturns(path: Move, visited: set<Pos>, fuel: nat)
    requires Pos(1, 2) !in visited
    ensures Search(PingBoard(), Pos(2, 1), path, visited, fuel) == None
    decreases fuel, 2
  {
    if fuel > 0 {
      var j := Jump(Pos(0, 3), Pos(1, 1));
      PingJumps(visited);
      PingToPong();
      PongNeverReturns(path + [Pos(0, 3)], visited + {Pos(1, 1)}, fuel - 1);
      assert SearchJump(PingBoard(), Pos(2, 1), path, visited, j, fuel) == None;
      assert [j][..0] == [];
    }
  }

  lemma {:induction false} PongNeverReturns(path: Move, visited: set<Pos>, fuel: nat)
    requires Pos(1, 2) !in visited
    ensures Search(PongBoard(), Pos(0, 3), path, visited, fuel) == None
    decreases fuel, 1
  {
    if fuel > 0 {
      var j0, j1 := Jump(Pos(2, 1), Pos(1, 1)), Jump(Pos(3, 0), Pos(1, 1));
      PongJumps(visited);
      PongJumpsBack(path, visited, fuel);
      assert [j0][..0] == [];
      assert SearchJumps(PongBoard(), Pos(0, 3), path, visited, [j0], fuel) == None;
      assert [j0, j1][..1] == [j0];
      assert SearchJumps(PongBoard(), Pos(0, 3), path, visited, [j0, j1], fuel) == None;
    }
  }

  /** Pong's first jump leads back to Ping. */
  lemma {:induction false} PongJumpsBack(path: Move, visited: set<Pos>, fuel: nat)
    requires Pos(1, 2) !in visited && fuel > 0
    ensures SearchJump(PongBoard(), Pos(0, 3), path, visited, Jump(Pos(2, 1), Pos(1, 1)), fuel) == None
    decreases fuel, 0
  {
    PongToPing();
    PingNeverReturns(path + [Pos(2, 1)], visited + {Pos(1, 1)}, fuel - 1);
  }

  /** As written, the search from the king on (2,1) never returns, however
      deep the recursion is allowed to go: the king jumps to (0,3) and back
      over the black man on (1,2), which is never removed. */
  lemma KingSearchDiverges(fuel: nat)
    ensures Search(PingBoard(), Pos(2, 1), [Pos(2, 1)], {}, fuel) == None
  {
    PingNeverReturns([Pos(2, 1)], {}, fuel);
  }

  lemma FixedPingJumps()
    ensures Jumps(PingBoard(), Pos(2, 1), {}, true) == [Jump(Pos(0, 3), Pos(1, 2))]
  {
    var g, p := PingBoard(), Pos(2, 1);
    var j := Jump(Pos(0, 3), Pos(1, 2));
    var w := WhiteKing;
    assert Get(g, p) == w;
    KingJumpsFour(g, p, {}, true);
    assert KingScan(g, p, w, {}, Dir(-1, -1), 1, 0, true) == [] by {
      assert Get(g, Pos(1, 0)) == Empty;
    }
    assert KingScan(g, p, w, {}, Dir(-1, 1), 1, 0, true) == [j] by {
      assert Get(g, Pos(1, 2)) == BlackMan;
      assert Get(g, Pos(0, 3)) == Empty;
      assert KingScan(g, p, w, {}, Dir(-1, 1), 3, 1, true) == [];
    }
    assert KingScan(g, p, w, {}, Dir(1, -1), 1, 0, true) == [] by {
      assert Get(g, Pos(3, 0)) == Empty;
    }
    assert KingScan(g, p, w, {}, Dir(1, 1), 1, 0, true) == [] by {
      var d := Dir(1, 1);
      assert Get(g, Pos(7, 6)) == Empty;
      assert KingScan(g, p, w, {}, d, 5, 0, true) == [];
      assert Get(g, Pos(6, 5)) == Empty;
      assert KingScan(g, p, w, {}, d, 4, 0, true) == [];
      assert Get(g, Pos(5, 4)) == Empty;
      assert KingScan(g, p, w, {}, d, 3, 0, true) == [];
      assert Get(g, Pos(4, 3)) == Empty;
      assert KingScan(g, p, w, {}, d, 2, 0, true) == [];
      assert Get(g, Pos(3, 2)) == Empty;
    }
  }

  /** With the enemy's own square recorded, the same position yields one
      chain: the king takes the man and lands on (0,3). */
  lemma KingSearchFixed()
    ensures Paths(PingBoard(), Pos(2, 1), [Pos(2, 1)], {}) == [[Pos(2, 1), Pos(0, 3)]]
  {
    var g, p := PingBoard(), Pos(2, 1);
    var j := Jump(Pos(0, 3), Pos(1, 2));
    FixedPingJumps();
    JumpsValid(g, p, {});
    PingCaptureEnds();
    assert !Promotes(Get(g, p), 0);
    assert [p] + [Pos(0, 3)] == [p, Pos(0, 3)];
    assert {} + {Pos(1, 2)} == {Pos(1, 2)};
    assert Branch(g, p, [p], {}, j) == Paths(NextBoard(g, p, j), Pos(0, 3), [p, Pos(0, 3)], {Pos(1, 2)});
    assert [j][..0] == [];
  }

  /** Once the king has taken Ping's man, no enemy is left and the chain
      ends where it landed. */
  lemma PingCaptureEnds()
    ensures Paths(NextBoard(PingBoard(), Pos(2, 1), Jump(Pos(0, 3), Pos(1, 2))), Pos(0, 3),
                  [Pos(2, 1), Pos(0, 3)], {Pos(1, 2)}) == [[Pos(2, 1), Pos(0, 3)]]
  {
    var p := Pos(2, 1);
    var h := NextBoard(PingBoard(), p, Jump(Pos(0, 3), Pos(1, 2)));
    assert Enemies(h, WhiteKing) == {} by {
      forall q | q in Enemies(h, WhiteKing)
        ensures false
      {
        EnemiesMember(h, WhiteKing, q);
      }
    }
    assert Get(h, Pos(0, 3)) == WhiteKing;
    NoEnemiesNoJumps(h, Pos(0, 3), {Pos(1, 2)});
    CountCapturesAppend([p], Pos(0, 3));
  }

  /** A piece with no enemy on the board has no jump. */
  lemma NoEnemiesNoJumps(g: Grid, p: Pos, visited: set<Pos>)
    requires ValidGrid(g) && OnBoard(p) && Enemies(g, Get(g, p)) == {}
    ensures Jumps(g, p, visited, true) == []
  {
    JumpsValid(g, p, visited);
    var js := Jumps(g, p, visited, true);
    if |js| > 0 {
      EnemiesMember(g, Get(g, p), js[0].captured);
      assert false;
    }
  }
}
