/** The legal moves of a player in GameView: among all capture chains only
    those that capture the most (findCaptureSequences per piece,
    getAllCaptureMovesForPlayer over the board), captures before simple moves
    (getAllPossibleMovesForPlayer), and the game status derived from them
    (checkGameStatus). */
module LegalMoves {
  import opened JavaText
  import opened Board
  import opened Moves
  import opened SimpleMoves
  import opened Captures

  // ------------------------------------------------ keeping the longest

  /** The largest capture count among the chains, 0 for none. */
  function MaxCount(ps: seq<Move>): nat
  {
    if |ps| == 0 then 0 else Max(MaxCount(ps[..|ps| - 1]), CountCaptures(ps[|ps| - 1]))
  }

  /** The chains that capture exactly n times, in order. */
  function WithCount(ps: seq<Move>, n: int): seq<Move>
  {
    if |ps| == 0 then []
    else WithCount(ps[..|ps| - 1], n) + (if CountCaptures(ps[|ps| - 1]) == n then [ps[|ps| - 1]] else [])
  }

  /** The chains with the largest capture count, in order; none when no
      chain captures at all. */
  function Longest(ps: seq<Move>): seq<Move>
  {
    if MaxCount(ps) > 0 then WithCount(ps, MaxCount(ps)) else []
  }

  /** MaxCount is the largest count of the chains, and one of them attains it. */
  lemma {:induction false} MaxCountIsMax(ps: seq<Move>)
    ensures forall i :: 0 <= i < |ps| ==> CountCaptures(ps[i]) <= MaxCount(ps)
    ensures |ps| > 0 ==> exists i :: 0 <= i < |ps| && CountCaptures(ps[i]) == MaxCount(ps)
  {
    if |ps| > 0 {
      var init := ps[..|ps| - 1];
      MaxCountIsMax(init);
      assert forall i :: 0 <= i < |init| ==> ps[i] == init[i];
      if |init| > 0 && MaxCount(init) >= CountCaptures(ps[|ps| - 1]) {
        var i :| 0 <= i < |init| && CountCaptures(init[i]) == MaxCount(init);
        assert CountCaptures(ps[i]) == MaxCount(ps);
      } else {
        assert CountCaptures(ps[|ps| - 1]) == MaxCount(ps);
      }
    }
  }

  lemma {:induction false} WithCountMember(ps: seq<Move>, n: int, m: Move)
    ensures m in WithCount(ps, n) <==> m in ps && CountCaptures(m) == n
  {
    if |ps| > 0 {
      var init := ps[..|ps| - 1];
      WithCountMember(init, n, m);
      assert ps == init + [ps[|ps| - 1]];
    }
  }

  /** A chain is among the longest exactly when it is one of the chains and
      no chain captures more; and then it captures at least once. */
  lemma LongestMember(ps: seq<Move>, m: Move)
    requires forall i :: 0 <= i < |ps| ==> CountCaptures(ps[i]) >= 1
    ensures m in Longest(ps) <==> m in ps && forall i :: 0 <= i < |ps| ==> CountCaptures(ps[i]) <= CountCaptures(m)
    ensures m in Longest(ps) ==> CountCaptures(m) == MaxCount(ps) >= 1
  {
    MaxCountIsMax(ps);
    WithCountMember(ps, MaxCount(ps), m);
    if m in ps && forall i :: 0 <= i < |ps| ==> CountCaptures(ps[i]) <= CountCaptures(m) {
      var k :| 0 <= k < |ps| && ps[k] == m;
      var i :| 0 <= i < |ps| && CountCaptures(ps[i]) == MaxCount(ps);
    }
  }

  /** Chains that all capture leave some longest ones. */
  lemma LongestNonEmpty(ps: seq<Move>)
    requires |ps| > 0 && forall i :: 0 <= i < |ps| ==> CountCaptures(ps[i]) >= 1
    ensures |Longest(ps)| > 0
  {
    MaxCountIsMax(ps);
    var i :| 0 <= i < |ps| && CountCaptures(ps[i]) == MaxCount(ps);
    LongestMember(ps, ps[i]);
  }

  lemma {:induction false} WithCountAbove(ps: seq<Move>, n: int)
    requires n > MaxCount(ps)
    ensures WithCount(ps, n) == []
  {
    if |ps| > 0 {
      WithCountAbove(ps[..|ps| - 1], n);
    }
  }

  /** One more chain: the longest so far stay, are joined by it, or give way
      to it. */
  lemma LongestStep(ps: seq<Move>, x: Move)
    ensures MaxCount(ps + [x]) == Max(MaxCount(ps), CountCaptures(x))
    ensures Longest(ps + [x]) ==
      if CountCaptures(x) > MaxCount(ps) then [x]
      else if CountCaptures(x) == MaxCount(ps) && CountCaptures(x) > 0 then Longest(ps) + [x]
      else Longest(ps)
  {
    assert (ps + [x])[..|ps|] == ps;
    if CountCaptures(x) > MaxCount(ps) {
      WithCountAbove(ps, CountCaptures(x));
    }
  }

  /** Every chain of L captures n times. */
  predicate Uniform(L: seq<Move>, n: int)
  {
    forall i :: 0 <= i < |L| ==> CountCaptures(L[i]) == n
  }

  /** Appending a block of chains that all capture n times, as
      getAllCaptureMovesForPlayer does for each piece. */
  lemma {:induction false} LongestAppendUniform(a: seq<Move>, L: seq<Move>, n: int)
    requires n >= 1 && |L| > 0 && Uniform(L, n)
    ensures MaxCount(a + L) == Max(MaxCount(a), n)
    ensures Longest(a + L) ==
      if n > MaxCount(a) then L else if n == MaxCount(a) then Longest(a) + L else Longest(a)
    decreases |L|
  {
    var init, x := L[..|L| - 1], L[|L| - 1];
    assert L == init + [x] && CountCaptures(x) == n;
    assert a + L == (a + init) + [x];
    LongestStep(a + init, x);
    if |init| == 0 {
      assert a + init == a;
    } else {
      assert Uniform(init, n);
      LongestAppendUniform(a, init, n);
      if n > MaxCount(a) {
        assert Longest(a + L) == Longest(a + init) + [x] == init + [x];
      } else if n == MaxCount(a) {
        assert Longest(a + L) == Longest(a + init) + [x] == (Longest(a) + init) + [x];
        AppendAssoc(Longest(a), init, [x]);
      } else {
        assert Longest(a + L) == Longest(a + init);
      }
    }
  }

  // ----------------------------------------------- one piece's captures

  /** findCaptureSequences: the longest chains of the piece on p. */
  function CaptureSequences(g: Grid, p: Pos): seq<Move>
    requires ValidGrid(g) && OnBoard(p)
  {
    var all := Paths(g, p, [p], {});
    if |all| == 0 || CountCaptures(all[0]) == 0 then [] else Longest(all)
  }

  /** The piece's chains each capture at least once. */
  lemma {:induction false} ChainsCapture(g: Grid, p: Pos)
    requires ValidGrid(g) && OnBoard(p)
    ensures forall i :: 0 <= i < |Paths(g, p, [p], {})| ==> CountCaptures(Paths(g, p, [p], {})[i]) >= 1
  {
    var all := Paths(g, p, [p], {});
    ChainsFromSquare(g, p);
    assert forall i :: 0 <= i < |all| ==> all[i] in all;
  }

  /** findCaptureSequences keeps exactly those chains of the piece that no
      other chain of it out-captures; it keeps some exactly when the piece
      can jump, and they all capture equally often, at least once. */
  lemma {:induction false} CaptureSequencesSpec(g: Grid, p: Pos, m: Move)
    requires ValidGrid(g) && OnBoard(p)
    ensures m in CaptureSequences(g, p) <==>
      m in Paths(g, p, [p], {}) && forall m' :: m' in Paths(g, p, [p], {}) ==> CountCaptures(m') <= CountCaptures(m)
    ensures |CaptureSequences(g, p)| > 0 <==> |Jumps(g, p, {}, true)| > 0
    ensures Uniform(CaptureSequences(g, p), MaxCount(Paths(g, p, [p], {})))
    ensures |CaptureSequences(g, p)| > 0 ==> MaxCount(Paths(g, p, [p], {})) >= 1
  {
    var all := Paths(g, p, [p], {});
    ChainsCapture(g, p);
    assert CaptureSequences(g, p) == Longest(all);
    LongestMember(all, m);
    assert (forall i :: 0 <= i < |all| ==> CountCaptures(all[i]) <= CountCaptures(m)) <==>
      (forall m' :: m' in all ==> CountCaptures(m') <= CountCaptures(m));
    PathsNonEmpty(g, p, [p], {});
    MaxCountIsMax(all);
    if |all| > 0 {
      var i :| 0 <= i < |all| && CountCaptures(all[i]) == MaxCount(all);
      LongestMember(all, all[i]);
    }
    forall k | 0 <= k < |Longest(all)|
      ensures CountCaptures(Longest(all)[k]) == MaxCount(all)
    {
      LongestMember(all, Longest(all)[k]);
    }
  }

  /** The filtering loop of findCaptureSequences: a running maximum, and
      the chains that reach it. */
  method KeepLongest(allPaths: seq<Move>) returns (longestPaths: seq<Move>)
    ensures longestPaths == Longest(allPaths)
  {
    longestPaths := [];
    var maxLen := 0;
    for i := 0 to |allPaths|
      invariant maxLen == MaxCount(allPaths[..i])
      invariant longestPaths == Longest(allPaths[..i])
    {
      var path := allPaths[i];
      assert allPaths[..i + 1] == allPaths[..i] + [path];
      LongestStep(allPaths[..i], path);
      var captures := CountCapturesInSequence(path);
      if captures > maxLen {
        maxLen := captures;
        longestPaths := [];
      }
      if captures == maxLen && maxLen > 0 {
        longestPaths := longestPaths + [path];
      }
    }
    assert allPaths[..|allPaths|] == allPaths;
  }

  /** findCaptureSequences: gathers the piece's chains, gives up when the
      first one captures nothing, and keeps the longest. */
  method FindCaptureSequences(g: Grid, p: Pos) returns (longestPaths: seq<Move>)
    requires ValidGrid(g) && OnBoard(p)
    ensures longestPaths == CaptureSequences(g, p)
  {
    var allPaths := FindCapturePathsRecursive(g, p, [p], [], {});
    assert allPaths == Paths(g, p, [p], {});
    if |allPaths| == 0 {
      return [];
    }
    var first := CountCapturesInSequence(allPaths[0]);
    if first == 0 {
      return [];
    }
    longestPaths := KeepLongest(allPaths);
  }

  /** A piece with a jump has a longest chain that captures at least as
      often as any chain of it. */
  lemma LongestDominates(g: Grid, p: Pos, m: Move)
    requires ValidGrid(g) && OnBoard(p) && m in Paths(g, p, [p], {})
    ensures exists m' :: m' in CaptureSequences(g, p) && CountCaptures(m) <= CountCaptures(m')
  {
    var all := Paths(g, p, [p], {});
    MaxCountIsMax(all);
    var i :| 0 <= i < |all| && CountCaptures(all[i]) == MaxCount(all);
    var k :| 0 <= k < |all| && all[k] == m;
    CaptureSequencesSpec(g, p, all[i]);
  }

  // --------------------------------------------- the player's captures

  /** What one square contributes: the longest chains of the player's piece
      on it, nothing otherwise. */
  function PieceCaptures(g: Grid, p: Pos, white: bool): seq<Move>
    requires ValidGrid(g) && OnBoard(p)
  {
    if IsPlayerPiece(Get(g, p), white) then CaptureSequences(g, p) else []
  }

  /** The per-piece chains of the squares before (r, c) in row-major order. */
  function CapturesBefore(g: Grid, white: bool, r: int, c: int): seq<Move>
    requires ValidGrid(g) && 0 <= r <= Size && 0 <= c <= Size && (r < Size || c == 0)
    decreases r, c
  {
    if c > 0 then CapturesBefore(g, white, r, c - 1) + PieceCaptures(g, Pos(r, c - 1), white)
    else if r > 0 then CapturesBefore(g, white, r - 1, Size)
    else []
  }

  /** getAllCaptureMovesForPlayer's result: among the per-piece chains, those
      of the largest capture count. */
  function AllCaptures(g: Grid, white: bool): seq<Move>
    requires ValidGrid(g)
  {
    Longest(CapturesBefore(g, white, Size, 0))
  }

  /** A capture chain of the player: a chain the search finds from a square
      holding one of the player's pieces. */
  predicate CaptureChain(g: Grid, white: bool, m: Move)
    requires ValidGrid(g)
  {
    |m| > 0 && OnBoard(m[0]) && IsPlayerPiece(Get(g, m[0]), white) && m in Paths(g, m[0], [m[0]], {})
  }

  lemma PieceCapturesMember(g: Grid, p: Pos, white: bool, m: Move)
    requires ValidGrid(g) && OnBoard(p)
    ensures m in PieceCaptures(g, p, white) <==>
      CaptureChain(g, white, m) && m[0] == p && m in CaptureSequences(g, p)
    ensures Uniform(PieceCaptures(g, p, white), MaxCount(Paths(g, p, [p], {})))
    ensures |PieceCaptures(g, p, white)| > 0 ==> MaxCount(Paths(g, p, [p], {})) >= 1
  {
    CaptureSequencesSpec(g, p, m);
    ChainsFromSquare(g, p);
  }

  /** The chains collected up to the square after (r, c - 1): those before
      it and those of the piece on it. */
  lemma CapturesBeforeStep(g: Grid, white: bool, m: Move, r: int, c: int)
    requires ValidGrid(g) && 0 <= r < Size && 0 < c <= Size
    ensures m in CapturesBefore(g, white, r, c) <==>
      m in CapturesBefore(g, white, r, c - 1) || m in PieceCaptures(g, Pos(r, c - 1), white)
  {
    var earlier, here := CapturesBefore(g, white, r, c - 1), PieceCaptures(g, Pos(r, c - 1), white);
    assert CapturesBefore(g, white, r, c) == earlier + here;
  }

  lemma {:induction false} CapturesBeforeMember(g: Grid, white: bool, m: Move, r: int, c: int)
    requires ValidGrid(g) && 0 <= r <= Size && 0 <= c <= Size && (r < Size || c == 0)
    ensures m in CapturesBefore(g, white, r, c) <==>
      CaptureChain(g, white, m) && m in CaptureSequences(g, m[0]) && (m[0].r < r || (m[0].r == r && m[0].c < c))
    decreases r, c, 1
  {
    if c > 0 {
      CapturesBeforeSquare(g, white, m, r, c);
    } else if r > 0 {
      assert CapturesBefore(g, white, r, c) == CapturesBefore(g, white, r - 1, Size);
      CapturesBeforeMember(g, white, m, r - 1, Size);
    }
  }

  /** The step of CapturesBeforeMember past one square of a row. */
  lemma {:induction false} CapturesBeforeSquare(g: Grid, white: bool, m: Move, r: int, c: int)
    requires ValidGrid(g) && 0 <= r < Size && 0 < c <= Size
    ensures m in CapturesBefore(g, white, r, c) <==>
      CaptureChain(g, white, m) && m in CaptureSequences(g, m[0]) && (m[0].r < r || (m[0].r == r && m[0].c < c))
    decreases r, c, 0
  {
    CapturesBeforeStep(g, white, m, r, c);
    CapturesBeforeMember(g, white, m, r, c - 1);
    PieceCapturesMember(g, Pos(r, c - 1), white, m);
    if |m| > 0 {
      assert m[0] == Pos(r, c - 1) <==> m[0].r == r && m[0].c == c - 1;
    }
  }

  /** Every chain the scan collects is a capture chain of the player, one
      of the longest of its piece, and captures at least once. */
  lemma AllChains(g: Grid, white: bool)
    requires ValidGrid(g)
    ensures forall i :: 0 <= i < |CapturesBefore(g, white, Size, 0)| ==>
      CaptureChain(g, white, CapturesBefore(g, white, Size, 0)[i]) &&
      CapturesBefore(g, white, Size, 0)[i] in CaptureSequences(g, CapturesBefore(g, white, Size, 0)[i][0]) &&
      CountCaptures(CapturesBefore(g, white, Size, 0)[i]) >= 1
  {
    var all := CapturesBefore(g, white, Size, 0);
    forall i | 0 <= i < |all|
      ensures CaptureChain(g, white, all[i]) && all[i] in CaptureSequences(g, all[i][0])
      ensures CountCaptures(all[i]) >= 1
    {
      CapturesBeforeMember(g, white, all[i], Size, 0);
      ChainsFromSquare(g, all[i][0]);
    }
  }

  /** A longest chain of a piece is one of its chains, starting on it. */
  lemma SequenceStart(g: Grid, p: Pos, m: Move)
    requires ValidGrid(g) && OnBoard(p) && m in CaptureSequences(g, p)
    ensures m in Paths(g, p, [p], {}) && |m| >= 2 && m[0] == p
  {
    CaptureSequencesSpec(g, p, m);
    ChainsFromSquare(g, p);
  }

  /** Every chain the scan collects captures at least once. */
  lemma CollectedCount(g: Grid, white: bool)
    requires ValidGrid(g)
    ensures forall i :: 0 <= i < |CapturesBefore(g, white, Size, 0)| ==>
      CountCaptures(CapturesBefore(g, white, Size, 0)[i]) >= 1
  {
    AllChains(g, white);
  }

  /** Every capture chain of the player is matched or beaten by a collected
      one. */
  lemma ChainDominated(g: Grid, white: bool, m: Move)
    requires ValidGrid(g) && CaptureChain(g, white, m)
    ensures exists k :: (0 <= k < |CapturesBefore(g, white, Size, 0)| &&
      CountCaptures(m) <= CountCaptures(CapturesBefore(g, white, Size, 0)[k]))
  {
    var all := CapturesBefore(g, white, Size, 0);
    LongestDominates(g, m[0], m);
    var m' :| m' in CaptureSequences(g, m[0]) && CountCaptures(m) <= CountCaptures(m');
    SequenceStart(g, m[0], m');
    assert CaptureChain(g, white, m');
    CapturesBeforeMember(g, white, m', Size, 0);
    var k :| 0 <= k < |all| && all[k] == m';
  }

  /** A capture chain of the player that no other one out-captures is
      collected and out-captures every collected chain. */
  lemma MaximalCollected(g: Grid, white: bool, m: Move)
    requires ValidGrid(g) && CaptureChain(g, white, m)
    requires forall m' :: CaptureChain(g, white, m') ==> CountCaptures(m') <= CountCaptures(m)
    ensures m in CapturesBefore(g, white, Size, 0)
    ensures forall i :: 0 <= i < |CapturesBefore(g, white, Size, 0)| ==>
      CountCaptures(CapturesBefore(g, white, Size, 0)[i]) <= CountCaptures(m)
  {
    CaptureSequencesSpec(g, m[0], m);
    forall m' | m' in Paths(g, m[0], [m[0]], {})
      ensures CountCaptures(m') <= CountCaptures(m)
    {
      ChainsFromSquare(g, m[0]);
      assert CaptureChain(g, white, m');
    }
    CapturesBeforeMember(g, white, m, Size, 0);
    AllChains(g, white);
  }

  /** A collected chain that out-captures every collected chain out-captures
      every capture chain of the player. */
  lemma CollectedMaximal(g: Grid, white: bool, m: Move)
    requires ValidGrid(g) && m in CapturesBefore(g, white, Size, 0)
    requires forall i :: 0 <= i < |CapturesBefore(g, white, Size, 0)| ==>
      CountCaptures(CapturesBefore(g, white, Size, 0)[i]) <= CountCaptures(m)
    ensures CaptureChain(g, white, m)
    ensures forall m' :: CaptureChain(g, white, m') ==> CountCaptures(m') <= CountCaptures(m)
  {
    CapturesBeforeMember(g, white, m, Size, 0);
    forall m' | CaptureChain(g, white, m')
      ensures CountCaptures(m') <= CountCaptures(m)
    {
      ChainDominated(g, white, m');
    }
  }

  /** getAllCaptureMovesForPlayer returns exactly the player's capture chains
      that no chain of the player out-captures, all with the same count, at
      least one. */
  lemma AllCapturesSpec(g: Grid, white: bool, m: Move)
    requires ValidGrid(g)
    ensures m in AllCaptures(g, white) <==>
      CaptureChain(g, white, m) && forall m' :: CaptureChain(g, white, m') ==> CountCaptures(m') <= CountCaptures(m)
    ensures m in AllCaptures(g, white) ==> CountCaptures(m) == MaxCount(CapturesBefore(g, white, Size, 0)) >= 1
  {
    var all := CapturesBefore(g, white, Size, 0);
    AllChains(g, white);
    LongestMember(all, m);
    if m in AllCaptures(g, white) {
      CollectedMaximal(g, white, m);
    }
    if CaptureChain(g, white, m) && forall m' :: CaptureChain(g, white, m') ==> CountCaptures(m') <= CountCaptures(m) {
      MaximalCollected(g, white, m);
    }
  }

  /** The player has a capture exactly when one of its pieces can jump. */
  lemma AllCapturesNonEmpty(g: Grid, white: bool)
    requires ValidGrid(g)
    ensures |AllCaptures(g, white)| > 0 <==>
      exists p :: OnBoard(p) && IsPlayerPiece(Get(g, p), white) && |Jumps(g, p, {}, true)| > 0
  {
    if |AllCaptures(g, white)| > 0 {
      var m := AllCaptures(g, white)[0];
      AllCapturesSpec(g, white, m);
      PathsNonEmpty(g, m[0], [m[0]], {});
    }
    if p :| OnBoard(p) && IsPlayerPiece(Get(g, p), white) && |Jumps(g, p, {}, true)| > 0 {
      PieceCanCapture(g, white, p);
    }
  }

  /** A piece of the player that can jump leaves the player a capture. */
  lemma PieceCanCapture(g: Grid, white: bool, p: Pos)
    requires ValidGrid(g) && OnBoard(p) && IsPlayerPiece(Get(g, p), white) && |Jumps(g, p, {}, true)| > 0
    ensures |AllCaptures(g, white)| > 0
  {
    CaptureSequencesSpec(g, p, [p]);
    var m := CaptureSequences(g, p)[0];
    SequenceStart(g, p, m);
    assert CaptureChain(g, white, m);
    CapturesBeforeMember(g, white, m, Size, 0);
    CollectedCount(g, white);
    LongestNonEmpty(CapturesBefore(g, white, Size, 0));
  }

  /** One square of getAllCaptureMovesForPlayer's scan: the chains of the
      player's piece there join, replace or miss the longest so far. */
  method AddPieceCaptures(g: Grid, p: Pos, white: bool, ghost before: seq<Move>,
                          allSequences: seq<Move>, maxCaptureLength: int)
    returns (allSequences': seq<Move>, maxCaptureLength': int)
    requires ValidGrid(g) && OnBoard(p)
    requires allSequences == Longest(before) && maxCaptureLength == MaxCount(before)
    ensures allSequences' == Longest(before + PieceCaptures(g, p, white))
    ensures maxCaptureLength' == MaxCount(before + PieceCaptures(g, p, white))
  {
    allSequences', maxCaptureLength' := allSequences, maxCaptureLength;
    if IsPlayerPiece(g[p.r][p.c], white) {
      var sequencesForPiece := FindCaptureSequences(g, p);
      if |sequencesForPiece| > 0 {
        PieceCapturesMember(g, p, white, sequencesForPiece[0]);
        var currentMaxLength := CountCapturesInSequence(sequencesForPiece[0]);
        LongestAppendUniform(before, sequencesForPiece, currentMaxLength);
        if currentMaxLength > maxCaptureLength' {
          maxCaptureLength' := currentMaxLength;
          allSequences' := [];
        }
        if currentMaxLength == maxCaptureLength' && currentMaxLength > 0 {
          allSequences' := allSequences' + sequencesForPiece;
        }
      } else {
        assert before + sequencesForPiece == before;
      }
    } else {
      assert before + PieceCaptures(g, p, white) == before;
    }
  }

  /** getAllCaptureMovesForPlayer: scans the board row by row, keeping a
      running maximum capture count and the chains that reach it. */
  method GetAllCaptureMovesForPlayer(g: Grid, white: bool) returns (allSequences: seq<Move>)
    requires ValidGrid(g)
    ensures allSequences == AllCaptures(g, white)
  {
    allSequences := [];
    var maxCaptureLength := 0;
    for r := 0 to Size
      invariant allSequences == Longest(CapturesBefore(g, white, r, 0))
      invariant maxCaptureLength == MaxCount(CapturesBefore(g, white, r, 0))
    {
      for c := 0 to Size
        invariant allSequences == Longest(CapturesBefore(g, white, r, c))
        invariant maxCaptureLength == MaxCount(CapturesBefore(g, white, r, c))
      {
        allSequences, maxCaptureLength :=
          AddPieceCaptures(g, Pos(r, c), white, CapturesBefore(g, white, r, c), allSequences, maxCaptureLength);
      }
    }
  }

  // ------------------------------------------------- legal moves, status

  /** getAllPossibleMovesForPlayer: the longest captures when there are any,
      otherwise the simple moves. */
  function PossibleMoves(g: Grid, white: bool): seq<Move>
    requires ValidGrid(g)
  {
    var captures := AllCaptures(g, white);
    if |captures| > 0 then captures else SimpleMovesForPlayer(g, white)
  }

  /** Some piece of the player can jump. */
  ghost predicate CanCapture(g: Grid, white: bool)
    requires ValidGrid(g)
  {
    exists p :: OnBoard(p) && IsPlayerPiece(Get(g, p), white) && |Jumps(g, p, {}, true)| > 0
  }

  /** Some piece of the player can jump or slide. */
  ghost predicate CanMove(g: Grid, white: bool)
    requires ValidGrid(g)
  {
    exists p :: OnBoard(p) && IsPlayerPiece(Get(g, p), white) &&
      (|Jumps(g, p, {}, true)| > 0 || |PieceTargets(g, p)| > 0)
  }

  /** Capturing is compulsory: when a piece of the player can jump, the legal
      moves are exactly the player's chains that capture the most, and no
      simple move is among them; otherwise they are exactly the simple moves. */
  lemma CapturePriority(g: Grid, white: bool, m: Move)
    requires ValidGrid(g)
    ensures CanCapture(g, white) ==>
      (m in PossibleMoves(g, white) <==>
        CaptureChain(g, white, m) && forall m' :: CaptureChain(g, white, m') ==> CountCaptures(m') <= CountCaptures(m))
    ensures CanCapture(g, white) && m in PossibleMoves(g, white) ==> CountCaptures(m) >= 1
    ensures !CanCapture(g, white) ==> (m in PossibleMoves(g, white) <==> IsSimpleMove(g, white, m))
  {
    AllCapturesNonEmpty(g, white);
    AllCapturesSpec(g, white, m);
    SimpleMovesExactly(g, white, m);
  }

  /** The player has no legal move exactly when none of its pieces can jump
      or slide. */
  lemma NoLegalMoves(g: Grid, white: bool)
    requires ValidGrid(g)
    ensures |PossibleMoves(g, white)| == 0 <==> !CanMove(g, white)
  {
    if CanMove(g, white) {
      MovableHasMove(g, white);
    } else {
      StuckHasNoMove(g, white);
    }
  }

  lemma MovableHasMove(g: Grid, white: bool)
    requires ValidGrid(g) && CanMove(g, white)
    ensures |PossibleMoves(g, white)| > 0
  {
    AllCapturesNonEmpty(g, white);
    var p :| OnBoard(p) && IsPlayerPiece(Get(g, p), white) &&
      (|Jumps(g, p, {}, true)| > 0 || |PieceTargets(g, p)| > 0);
    if |Jumps(g, p, {}, true)| == 0 {
      var m: Move := [p, PieceTargets(g, p)[0]];
      SimpleMovesExactly(g, white, m);
    }
  }

  lemma StuckHasNoMove(g: Grid, white: bool)
    requires ValidGrid(g) && !CanMove(g, white)
    ensures |PossibleMoves(g, white)| == 0
  {
    AllCapturesNonEmpty(g, white);
    var simple := SimpleMovesForPlayer(g, white);
    if |simple| > 0 {
      SimpleMovesExactly(g, white, simple[0]);
      assert false;
    }
  }

  /** getAllPossibleMovesForPlayer */
  method GetAllPossibleMovesForPlayer(g: Grid, white: bool) returns (moves: seq<Move>)
    requires ValidGrid(g)
    ensures moves == PossibleMoves(g, white)
  {
    var captureMoves := GetAllCaptureMovesForPlayer(g, white);
    if |captureMoves| > 0 {
      return captureMoves;
    }
    moves := GetSimpleMovesForPlayer(g, white);
  }

  /** checkGameStatus: 2 when white has no legal move, else 1 when black has
      none, else 0. */
  function GameStatus(g: Grid): int
    requires ValidGrid(g)
  {
    if |PossibleMoves(g, true)| == 0 then 2
    else if |PossibleMoves(g, false)| == 0 then 1
    else 0
  }

  /** The status in terms of the board: 2 when no white piece can move, 1
      when white can and no black piece can, 0 when both sides can. */
  lemma GameStatusSpec(g: Grid)
    requires ValidGrid(g)
    ensures GameStatus(g) == 2 <==> !CanMove(g, true)
    ensures GameStatus(g) == 1 <==> CanMove(g, true) && !CanMove(g, false)
    ensures GameStatus(g) == 0 <==> CanMove(g, true) && CanMove(g, false)
  {
    NoLegalMoves(g, true);
    NoLegalMoves(g, false);
  }

  /** A side with no pieces left has lost. */
  lemma NoPiecesLost(g: Grid, white: bool)
    requires ValidGrid(g)
    requires forall p :: OnBoard(p) ==> !IsPlayerPiece(Get(g, p), white)
    ensures white ==> GameStatus(g) == 2
    ensures !white && CanMove(g, true) ==> GameStatus(g) == 1
  {
    GameStatusSpec(g);
  }

  /** checkGameStatus */
  method CheckGameStatus(g: Grid) returns (status: int)
    requires ValidGrid(g)
    ensures status == GameStatus(g)
  {
    var whiteMoves := GetAllPossibleMovesForPlayer(g, true);
    var blackMoves := GetAllPossibleMovesForPlayer(g, false);
    if |whiteMoves| == 0 {
      return 2;
    }
    if |blackMoves| == 0 {
      return 1;
    }
    return 0;
  }
}
