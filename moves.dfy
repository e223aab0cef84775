/** Moves as square sequences, the capture count of a move, and applyMove /
    undoMove of GameView with the MoveRecord undo token. */
module Moves {
  import opened Board

  /** A move: the start square, any landing squares, the final square. */
  type Move = seq<Pos>

  predicate ValidPath(s: Move) { |s| >= 1 && forall i :: 0 <= i < |s| ==> OnBoard(s[i]) }

  /** A step the engine treats as a capture: the rows differ by two or more. */
  predicate IsJumpStep(a: Pos, b: Pos) { Abs(a.r - b.r) >= 2 }

  /** The square a capture step jumps over, as applyMove computes it (the
      integer midpoint; coordinates are never negative here, so Java's
      truncating division agrees with Dafny's). */
  function Mid(a: Pos, b: Pos): (m: Pos)
    requires OnBoard(a) && OnBoard(b)
    ensures OnBoard(m)
  {
    Pos((a.r + b.r) / 2, (a.c + b.c) / 2)
  }

  // --------------------------------------------------------- capture count

  /** countCapturesInSequence: the number of consecutive pairs that are
      capture steps. */
  function CountCaptures(s: Move): nat
  {
    if |s| < 2 then 0
    else CountCaptures(s[..|s| - 1]) + (if IsJumpStep(s[|s| - 2], s[|s| - 1]) then 1 else 0)
  }

  /** Whether step i, from s[i] to s[i+1], is a capture step. */
  predicate IsJumpAt(s: Move, i: int)
    requires 0 <= i < |s| - 1
  {
    IsJumpStep(s[i], s[i + 1])
  }

  /** The indices i below n at which step i is a capture step. */
  function JumpIndices(s: Move, n: int): set<int>
    requires n <= |s| - 1
  {
    set i | 0 <= i < n && IsJumpAt(s, i)
  }

  lemma CountCapturesAppend(s: Move, x: Pos)
    requires |s| >= 1
    ensures CountCaptures(s + [x]) == CountCaptures(s) + (if IsJumpStep(s[|s| - 1], x) then 1 else 0)
  {
    assert (s + [x])[..|s|] == s;
  }

  /** The recursive count is the number of capture steps of the move. */
  lemma {:induction false} CountCapturesIsJumpCount(s: Move)
    requires |s| >= 1
    ensures CountCaptures(s) == |JumpIndices(s, |s| - 1)|
  {
    if |s| >= 2 {
      var init := s[..|s| - 1];
      CountCapturesIsJumpCount(init);
      var last := |s| - 2;
      assert forall i :: 0 <= i < last ==> IsJumpAt(init, i) == IsJumpAt(s, i);
      assert JumpIndices(init, |init| - 1) == JumpIndices(s, last);
      if IsJumpStep(s[last], s[last + 1]) {
        assert JumpIndices(s, |s| - 1) == JumpIndices(s, last) + {last};
      } else {
        assert JumpIndices(s, |s| - 1) == JumpIndices(s, last);
      }
    }
  }

  /** countCapturesInSequence's loop over consecutive pairs. */
  method CountCapturesInSequence(s: Move) returns (captures: nat)
    ensures |s| < 2 ==> captures == 0
    ensures |s| >= 2 ==> captures == |JumpIndices(s, |s| - 1)|
    ensures captures == CountCaptures(s)
  {
    if |s| < 2 {
      return 0;
    }
    captures := 0;
    for i := 0 to |s| - 1
      invariant captures == |JumpIndices(s, i)|
    {
      if Abs(s[i].r - s[i + 1].r) >= 2 {
        assert JumpIndices(s, i + 1) == JumpIndices(s, i) + {i};
        captures := captures + 1;
      } else {
        assert JumpIndices(s, i + 1) == JumpIndices(s, i);
      }
    }
    CountCapturesIsJumpCount(s);
  }

  // ------------------------------------------------------- apply and undo

  /** A captured piece and where it stood. */
  datatype Captured = Captured(piece: int, at: Pos)

  /** The undo token: the move, the moving piece's code, the captured
      pieces in capture order, and whether the move crowned the piece. */
  datatype MoveRecord = MoveRecord(sequence: Move, pieceMoved: int, captured: seq<Captured>, wasPromoted: bool)

  /** A man that ends its move on the far row (row 0 for white, row 7 for
      black) is crowned. */
  predicate Promotes(piece: int, row: int)
  {
    !IsKing(piece) && ((IsWhitePiece(piece) && row == 0) || (IsBlackPiece(piece) && row == Size - 1))
  }

  function Crowned(piece: int): int
  {
    if IsWhitePiece(piece) then WhiteKing else BlackKing
  }

  /** The midpoints of the capture steps among steps 1..k-1, in order. */
  function JumpMids(s: Move, k: int): (m: seq<Pos>)
    requires ValidPath(s) && 1 <= k <= |s|
    ensures |m| == CountCaptures(s[..k])
    ensures forall j :: 0 <= j < |m| ==> OnBoard(m[j])
  {
    if k == 1 then []
    else
      assert s[..k][..k - 1] == s[..k - 1];
      JumpMids(s, k - 1) + (if IsJumpStep(s[k - 2], s[k - 1]) then [Mid(s[k - 2], s[k - 1])] else [])
  }

  /** The board and captured list after applyMove's loop has handled steps
      1..k-1: each capture step empties its midpoint and records what stood
      there at that moment. */
  function Swept(g: Grid, s: Move, k: int): (res: (Grid, seq<Captured>))
    requires ValidGrid(g) && ValidPath(s) && 1 <= k <= |s|
    ensures ValidGrid(res.0)
    ensures forall j :: 0 <= j < |res.1| ==> OnBoard(res.1[j].at) && IsCode(res.1[j].piece)
  {
    if k == 1 then (g, [])
    else
      var prev := Swept(g, s, k - 1);
      if IsJumpStep(s[k - 2], s[k - 1]) then
        var m := Mid(s[k - 2], s[k - 1]);
        (Set(prev.0, m, Empty), prev.1 + [Captured(Get(prev.0, m), m)])
      else prev
  }

  /** applyMove on a board value: the new board and the record. */
  function ApplyGrid(g: Grid, s: Move): (res: (Grid, MoveRecord))
    requires ValidGrid(g) && ValidPath(s)
    ensures ValidGrid(res.0)
  {
    var start := s[0];
    var piece := Get(g, start);
    var swept := Swept(Set(g, start, Empty), s, |s|);
    var fin := s[|s| - 1];
    var promoted := Promotes(piece, fin.r);
    (Set(swept.0, fin, if promoted then Crowned(piece) else piece), MoveRecord(s, piece, swept.1, promoted))
  }

  predicate ValidRecord(rec: MoveRecord)
  {
    ValidPath(rec.sequence) && IsCode(rec.pieceMoved) &&
    forall j :: 0 <= j < |rec.captured| ==> OnBoard(rec.captured[j].at) && IsCode(rec.captured[j].piece)
  }

  /** The board after writing back the first k captured pieces, in order. */
  function Restored(g: Grid, caps: seq<Captured>, k: int): (h: Grid)
    requires ValidGrid(g) && 0 <= k <= |caps|
    requires forall j :: 0 <= j < |caps| ==> OnBoard(caps[j].at) && IsCode(caps[j].piece)
    ensures ValidGrid(h)
  {
    if k == 0 then g else Set(Restored(g, caps, k - 1), caps[k - 1].at, caps[k - 1].piece)
  }

  /** undoMove on a board value: put the moved piece back on the start
      square, then empty the final square, then put back the captured
      pieces. */
  function UndoGrid(g: Grid, rec: MoveRecord): (h: Grid)
    requires ValidGrid(g) && ValidRecord(rec)
    ensures ValidGrid(h)
  {
    var s := rec.sequence;
    var g1 := Set(g, s[0], rec.pieceMoved);
    var g2 := Set(g1, s[|s| - 1], Empty);
    Restored(g2, rec.captured, |rec.captured|)
  }

  predicate NoDup(xs: seq<Pos>) { forall i, j :: 0 <= i < j < |xs| ==> xs[i] != xs[j] }

  /** What applyMove's loop does to the board and the record. */
  lemma {:induction false} SweptEffect(g: Grid, s: Move, k: int)
    requires ValidGrid(g) && ValidPath(s) && 1 <= k <= |s|
    ensures |Swept(g, s, k).1| == |JumpMids(s, k)|
    ensures forall j :: 0 <= j < |JumpMids(s, k)| ==> Swept(g, s, k).1[j].at == JumpMids(s, k)[j]
    ensures forall q :: OnBoard(q) ==>
      Get(Swept(g, s, k).0, q) == if q in JumpMids(s, k) then Empty else Get(g, q)
    ensures NoDup(JumpMids(s, k)) ==>
      forall j :: 0 <= j < |JumpMids(s, k)| ==> Swept(g, s, k).1[j].piece == Get(g, JumpMids(s, k)[j])
  {
    if k > 1 {
      SweptEffect(g, s, k - 1);
      var prev := JumpMids(s, k - 1);
      if IsJumpStep(s[k - 2], s[k - 1]) {
        var m := Mid(s[k - 2], s[k - 1]);
        assert JumpMids(s, k) == prev + [m];
        NoDupSnoc(prev, m);
      } else {
        assert JumpMids(s, k) == prev;
      }
    }
  }

  /** A list without repeats stays so without its last element, which is
      not among the others. */
  lemma NoDupSnoc(xs: seq<Pos>, x: Pos)
    ensures NoDup(xs + [x]) ==> NoDup(xs) && x !in xs
  {
    if NoDup(xs + [x]) {
      forall i, j | 0 <= i < j < |xs| ensures xs[i] != xs[j] {
        assert (xs + [x])[i] == xs[i] && (xs + [x])[j] == xs[j];
      }
      forall i | 0 <= i < |xs| ensures xs[i] != x {
        assert (xs + [x])[i] == xs[i] && (xs + [x])[|xs|] == x;
      }
    }
  }

  /** applyMove empties the start square, zeroes the midpoint of every step
      whose rows differ by two or more, recording the captured pieces in
      order (with their original codes when those midpoints are distinct and
      differ from the start), writes the piece to the final square (crowned
      exactly when a white man reaches row 0 or a black man row 7), and
      changes no other square. */
  lemma ApplyMoveEffect(g: Grid, s: Move)
    requires ValidGrid(g) && ValidPath(s)
    ensures var h := ApplyGrid(g, s).0;
            var rec := ApplyGrid(g, s).1;
            var piece := Get(g, s[0]);
            var fin := s[|s| - 1];
            var mids := JumpMids(s, |s|);
            && rec.sequence == s
            && rec.pieceMoved == piece
            && (rec.wasPromoted <==> !IsKing(piece) && ((IsWhitePiece(piece) && fin.r == 0) || (IsBlackPiece(piece) && fin.r == 7)))
            && Get(h, fin) == (if rec.wasPromoted then (if IsWhitePiece(piece) then WhiteKing else BlackKing) else piece)
            && (forall q :: OnBoard(q) && q != fin ==>
                  Get(h, q) == if q == s[0] || q in mids then Empty else Get(g, q))
            && |rec.captured| == |mids| == CountCaptures(s)
            && (forall j :: 0 <= j < |mids| ==> rec.captured[j].at == mids[j])
            && (NoDup(mids) && s[0] !in mids ==>
                  forall j :: 0 <= j < |mids| ==> rec.captured[j].piece == Get(g, mids[j]))
  {
    var g1 := Set(g, s[0], Empty);
    SweptEffect(g1, s, |s|);
    assert s[..|s|] == s;
  }

  /** What putting back the captured pieces does, when no square is listed
      twice. */
  lemma {:induction false} RestoredEffect(g: Grid, caps: seq<Captured>, k: int)
    requires ValidGrid(g) && 0 <= k <= |caps|
    requires forall j :: 0 <= j < |caps| ==> OnBoard(caps[j].at) && IsCode(caps[j].piece)
    requires forall i, j :: 0 <= i < j < |caps| ==> caps[i].at != caps[j].at
    ensures forall j :: 0 <= j < k ==> Get(Restored(g, caps, k), caps[j].at) == caps[j].piece
    ensures forall q :: OnBoard(q) && (forall j :: 0 <= j < k ==> caps[j].at != q) ==>
      Get(Restored(g, caps, k), q) == Get(g, q)
  {
    if k > 0 {
      RestoredEffect(g, caps, k - 1);
    }
  }

  /** Undo inverts apply: when the final square was empty and differs from
      the start, and the captured midpoints are pairwise distinct and differ
      from both the start and the final square, undoing the record of a move
      restores the board exactly. */
  lemma ApplyUndoInverse(g: Grid, s: Move)
    requires ValidGrid(g) && ValidPath(s)
    requires s[|s| - 1] != s[0] && Get(g, s[|s| - 1]) == Empty
    requires NoDup(JumpMids(s, |s|)) && s[0] !in JumpMids(s, |s|) && s[|s| - 1] !in JumpMids(s, |s|)
    ensures ValidRecord(ApplyGrid(g, s).1)
    ensures UndoGrid(ApplyGrid(g, s).0, ApplyGrid(g, s).1) == g
  {
    ApplyMoveEffect(g, s);
    var u := UndoGrid(ApplyGrid(g, s).0, ApplyGrid(g, s).1);
    var mids := JumpMids(s, |s|);
    forall j | 0 <= j < |mids| ensures Get(u, mids[j]) == Get(g, mids[j]) {
      UndoRestoresCaptured(g, s, j);
    }
    forall q | OnBoard(q) && q !in mids ensures Get(u, q) == Get(g, q) {
      UndoRestoresOther(g, s, q);
    }
    GridExt(u, g);
  }

  lemma UndoRestoresCaptured(g: Grid, s: Move, j: int)
    requires ValidGrid(g) && ValidPath(s)
    requires NoDup(JumpMids(s, |s|)) && s[0] !in JumpMids(s, |s|)
    requires 0 <= j < |JumpMids(s, |s|)|
    ensures ValidRecord(ApplyGrid(g, s).1)
    ensures Get(UndoGrid(ApplyGrid(g, s).0, ApplyGrid(g, s).1), JumpMids(s, |s|)[j]) == Get(g, JumpMids(s, |s|)[j])
  {
    ApplyMoveEffect(g, s);
    var h := ApplyGrid(g, s).0;
    var rec := ApplyGrid(g, s).1;
    var g2 := Set(Set(h, s[0], rec.pieceMoved), s[|s| - 1], Empty);
    RestoredEffect(g2, rec.captured, |rec.captured|);
  }

  lemma UndoRestoresOther(g: Grid, s: Move, q: Pos)
    requires ValidGrid(g) && ValidPath(s) && OnBoard(q)
    requires s[|s| - 1] != s[0] && Get(g, s[|s| - 1]) == Empty
    requires q !in JumpMids(s, |s|)
    ensures ValidRecord(ApplyGrid(g, s).1)
    ensures Get(UndoGrid(ApplyGrid(g, s).0, ApplyGrid(g, s).1), q) == Get(g, q)
  {
    RecordShape(g, s);
    SweptEffect(Set(g, s[0], Empty), s, |s|);
    var h := ApplyGrid(g, s).0;
    var rec := ApplyGrid(g, s).1;
    var g2 := Set(Set(h, s[0], rec.pieceMoved), s[|s| - 1], Empty);
    RestoredWithout(g2, rec.captured, |rec.captured|, q);
  }

  /** The exception to the inverse: a move that ends on its own start square
      (a king's closed capture loop) loses the moving piece on undo, because
      undoMove writes the start square before it empties the final one. */
  lemma UndoLosesPieceOnClosedChain(g: Grid, s: Move)
    requires ValidGrid(g) && ValidPath(s)
    requires s[|s| - 1] == s[0] && Get(g, s[0]) != Empty && s[0] !in JumpMids(s, |s|)
    ensures ValidRecord(ApplyGrid(g, s).1)
    ensures Get(UndoGrid(ApplyGrid(g, s).0, ApplyGrid(g, s).1), s[0]) == Empty
    ensures UndoGrid(ApplyGrid(g, s).0, ApplyGrid(g, s).1) != g
  {
    RecordShape(g, s);
    var h := ApplyGrid(g, s).0;
    var rec := ApplyGrid(g, s).1;
    var g2 := Set(Set(h, s[0], rec.pieceMoved), s[0], Empty);
    assert Get(g2, s[0]) == Empty;
    RestoredWithout(g2, rec.captured, |rec.captured|, s[0]);
  }

  /** The record of applyMove lists the capture midpoints in order. */
  lemma RecordShape(g: Grid, s: Move)
    requires ValidGrid(g) && ValidPath(s)
    ensures ValidRecord(ApplyGrid(g, s).1)
    ensures |ApplyGrid(g, s).1.captured| == |JumpMids(s, |s|)|
    ensures forall j :: 0 <= j < |JumpMids(s, |s|)| ==> ApplyGrid(g, s).1.captured[j].at == JumpMids(s, |s|)[j]
  {
    ApplyMoveEffect(g, s);
  }

  lemma {:induction false} RestoredWithout(g: Grid, caps: seq<Captured>, k: int, q: Pos)
    requires ValidGrid(g) && 0 <= k <= |caps| && OnBoard(q)
    requires forall j :: 0 <= j < |caps| ==> OnBoard(caps[j].at) && IsCode(caps[j].piece)
    requires forall j :: 0 <= j < k ==> caps[j].at != q
    ensures Get(Restored(g, caps, k), q) == Get(g, q)
  {
    if k > 0 {
      RestoredWithout(g, caps, k - 1, q);
    }
  }

  /** One cell write, seen on the board value. */
  method Write(a: array2<int>, p: Pos, x: int)
    requires Is8x8(a) && OnBoard(p) && IsCode(x)
    modifies a
    ensures Is8x8(a) && Cells(a) == Set(old(Cells(a)), p, x)
  {
    ghost var g := Cells(a);
    a[p.r, p.c] := x;
    GridExt(Cells(a), Set(g, p, x));
  }

  /** applyMove: rewrites the board in place and returns the undo record. */
  method ApplyMove(a: array2<int>, s: Move) returns (rec: MoveRecord)
    requires Is8x8(a) && ValidPath(s)
    modifies a
    ensures Is8x8(a)
    ensures (Cells(a), rec) == ApplyGrid(old(Cells(a)), s)
  {
    ghost var g0 := Cells(a);
    var start := s[0];
    var piece := a[start.r, start.c];
    Write(a, start, Empty);
    ghost var g1 := Cells(a);
    var captured: seq<Captured> := [];
    var last := start;
    for i := 1 to |s|
      invariant Is8x8(a)
      invariant last == s[i - 1]
      invariant (Cells(a), captured) == Swept(g1, s, i)
    {
      captured := SweepStep(a, g1, s, i, last, captured);
      last := s[i];
    }
    var fin := s[|s| - 1];
    var becomesKing := !IsKing(piece) && ((IsWhitePiece(piece) && fin.r == 0) || (IsBlackPiece(piece) && fin.r == Size - 1));
    rec := MoveRecord(s, piece, captured, becomesKing);
    Write(a, fin, if becomesKing then (if IsWhitePiece(piece) then WhiteKing else BlackKing) else piece);
  }

  /** One pass of applyMove's loop: a capture step from last to s[i] empties
      the jumped square and records what stood there. */
  method SweepStep(a: array2<int>, ghost g1: Grid, s: Move, i: int, last: Pos, captured: seq<Captured>)
    returns (captured': seq<Captured>)
    requires Is8x8(a) && ValidGrid(g1) && ValidPath(s) && 1 <= i < |s| && last == s[i - 1]
    requires (Cells(a), captured) == Swept(g1, s, i)
    modifies a
    ensures Is8x8(a) && (Cells(a), captured') == Swept(g1, s, i + 1)
  {
    var next := s[i];
    captured' := captured;
    if Abs(last.r - next.r) >= 2 {
      var m := Mid(last, next);
      captured' := captured + [Captured(a[m.r, m.c], m)];
      Write(a, m, Empty);
    }
  }

  /** undoMove: inverts a move in place from its record. */
  method UndoMove(a: array2<int>, rec: MoveRecord)
    requires Is8x8(a) && ValidRecord(rec)
    modifies a
    ensures Is8x8(a)
    ensures Cells(a) == UndoGrid(old(Cells(a)), rec)
  {
    var s := rec.sequence;
    var start := s[0];
    var fin := s[|s| - 1];
    Write(a, start, rec.pieceMoved);
    Write(a, fin, Empty);
    PutBack(a, rec.captured);
  }

  /** undoMove's loop: writes the captured pieces back, in capture order. */
  method PutBack(a: array2<int>, caps: seq<Captured>)
    requires Is8x8(a)
    requires forall j :: 0 <= j < |caps| ==> OnBoard(caps[j].at) && IsCode(caps[j].piece)
    modifies a
    ensures Is8x8(a) && Cells(a) == Restored(old(Cells(a)), caps, |caps|)
  {
    ghost var g := Cells(a);
    for i := 0 to |caps|
      invariant Is8x8(a)
      invariant Cells(a) == Restored(g, caps, i)
    {
      Write(a, caps[i].at, caps[i].piece);
    }
  }

  /** The search's use of the pair (apply, explore, undo): on a move whose
      final square is empty and apart from the start, and whose captured
      squares are distinct and apart from both ends, the board comes back
      unchanged. */
  method ApplyAndUndo(a: array2<int>, s: Move)
    requires Is8x8(a) && ValidPath(s)
    requires s[|s| - 1] != s[0] && a[s[|s| - 1].r, s[|s| - 1].c] == Empty
    requires NoDup(JumpMids(s, |s|)) && s[0] !in JumpMids(s, |s|) && s[|s| - 1] !in JumpMids(s, |s|)
    modifies a
    ensures Is8x8(a) && Cells(a) == old(Cells(a))
  {
    ghost var g0 := Cells(a);
    ApplyUndoInverse(g0, s);
    var rec := ApplyMove(a, s);
    UndoMove(a, rec);
  }
}
