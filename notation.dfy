/** GameView's move notation (getMoveNotation): the dark squares numbered 1
    to 32 row by row, a move written as its first and last square joined by
    'x' for a capture and '-' otherwise. */
module Notation {
  import opened JavaText
  import opened Board
  import opened Moves

  /** The number of a square: four dark squares a row, counted from 1. */
  function SquareNumber(p: Pos): int
  {
    p.r * 4 + JDiv(p.c, 2) + 1
  }

  /** Every square of the board has a number from 1 to 32. */
  lemma SquareNumberRange(p: Pos)
    requires OnBoard(p)
    ensures 1 <= SquareNumber(p) <= 32
  {
  }

  /** Two dark squares with the same number are the same square. */
  lemma SquareNumberDistinct(p: Pos, q: Pos)
    requires OnBoard(p) && OnBoard(q) && Playable(p) && Playable(q)
    requires SquareNumber(p) == SquareNumber(q)
    ensures p == q
  {
    var hp, hq := p.c / 2, q.c / 2;
    assert 0 <= hp < 4 && 0 <= hq < 4;
    assert p.r * 4 + hp == q.r * 4 + hq;
    assert p.r == q.r && hp == hq;
    assert p.c == 2 * hp || p.c == 2 * hp + 1;
    assert q.c == 2 * hp || q.c == 2 * hp + 1;
    OddThenEven(p.r + 2 * hp);
  }

  lemma OddThenEven(x: int)
    ensures x % 2 != 0 ==> (x + 1) % 2 == 0
  {
  }

  function Separator(m: Move): char
  {
    if CountCaptures(m) > 0 then 'x' else '-'
  }

  /** getMoveNotation: "" for no move, otherwise the first square's number,
      the separator and the last square's number. */
  function MoveNotation(m: Move): (s: string)
    ensures |m| == 0 <==> s == ""
  {
    if |m| == 0 then ""
    else IntToString(SquareNumber(m[0])) + [Separator(m)] + IntToString(SquareNumber(m[|m| - 1]))
  }

  /** The notation of a move between squares of the board: two square numbers
      from 1 to 32 in decimal around one separator, which is 'x' exactly when
      the move captures; neither 'x' nor '-' occurs anywhere else. */
  lemma NotationShape(m: Move)
    requires |m| >= 1 && OnBoard(m[0]) && OnBoard(m[|m| - 1])
    ensures var a, b := SquareNumber(m[0]), SquareNumber(m[|m| - 1]);
      1 <= a <= 32 && 1 <= b <= 32 &&
      MoveNotation(m) == NatToString(a) + [Separator(m)] + NatToString(b)
    ensures 'x' in MoveNotation(m) <==> CountCaptures(m) > 0
    ensures '-' in MoveNotation(m) <==> CountCaptures(m) == 0
    ensures 'x' !in NatToString(SquareNumber(m[0])) && '-' !in NatToString(SquareNumber(m[0]))
    ensures 'x' !in NatToString(SquareNumber(m[|m| - 1])) && '-' !in NatToString(SquareNumber(m[|m| - 1]))
  {
    var na, nb := SquareNumber(m[0]), SquareNumber(m[|m| - 1]);
    SquareNumberRange(m[0]);
    SquareNumberRange(m[|m| - 1]);
    var a, b := NatToString(na), NatToString(nb);
    assert IntToString(na) == a && IntToString(nb) == b;
    NoSignInDigits(a);
    NoSignInDigits(b);
    SeparatorOnly(a, Separator(m), b);
  }

  lemma NoSignInDigits(a: string)
    requires AllDigits(a)
    ensures 'x' !in a && '-' !in a
  {
    forall i | 0 <= i < |a|
      ensures a[i] != 'x' && a[i] != '-'
    {
      assert IsDigit(a[i]);
    }
  }

  /** In digits, a separator and digits, 'x' or '-' occurs only as the
      separator. */
  lemma SeparatorOnly(a: string, sep: char, b: string)
    requires 'x' !in a && '-' !in a && 'x' !in b && '-' !in b
    ensures 'x' in a + [sep] + b <==> sep == 'x'
    ensures '-' in a + [sep] + b <==> sep == '-'
  {
    var s := a + [sep] + b;
    assert s[|a|] == sep;
    forall i | 0 <= i < |s| && i != |a|
      ensures s[i] != 'x' && s[i] != '-'
    {
      if i < |a| {
        assert s[i] == a[i];
      } else {
        assert s[i] == b[i - |a| - 1];
      }
    }
  }
}
