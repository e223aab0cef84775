/** GameLogger: the opening book the engine learns from its own games. For
    each history (the notations of the moves played so far, joined by ','),
    the book keeps a score for each move played next: +1 per game the engine
    won after it, -1 per game it lost, 0 for a draw. The engine plays the
    best-scored move when that score is at least 1. The book lives in a text
    file of lines "history:move,score;move,score". */
module OpeningBook {
  import opened JavaText
  import opened Board
  import opened Moves
  import opened Notation

  /** The scores of the moves played from one history. */
  type Scores = map<string, int>

  /** The whole book: history key to the scores of the moves played next. */
  type Book = map<string, Scores>

  // ------------------------------------------------------ parseMoveNotation

  /** What parseMoveNotation ends with: a two-square move, null, or an
      ArrayIndexOutOfBoundsException that escapes it. */
  datatype Parsed = Parsed(squares: Move) | NoMove | IndexOutOfBounds

  /** The square a number stands for, computed in Java int arithmetic as
      parseMoveNotation does: the row is (n - 1) / 4, the column twice the
      rest, shifted right by one on even rows. */
  function SquareOf(n: int): Pos
    requires IsInt32(n)
  {
    var k := Wrap32(n - 1);
    var r := JDiv(k, 4);
    Pos(r, JRem(k, 4) * 2 + (if JRem(r, 2) == 0 then 1 else 0))
  }

  /** parseMoveNotation: the separator is 'x' when the text holds one and
      '-' otherwise; the first two fields are read as square numbers. A field
      that is not a number makes it return null; a missing field throws. */
  function ParseMoveNotation(s: string): (r: Parsed)
    ensures r.Parsed? ==> |r.squares| == 2
    ensures r.Parsed? ==> s != "" && exists a, b :: IsInt32(a) && IsInt32(b) && r.squares == [SquareOf(a), SquareOf(b)]
    ensures s == "" ==> r == NoMove
  {
    if s == "" then NoMove
    else
      var parts := Split(s, if 'x' in s then 'x' else '-');
      if |parts| == 0 then IndexOutOfBounds
      else match ParseInt(parts[0])
        case None => NoMove
        case Some(first) =>
          if |parts| < 2 then IndexOutOfBounds
          else match ParseInt(parts[1])
            case None => NoMove
            case Some(last) => Parsed([SquareOf(first), SquareOf(last)])
  }

  /** Only the numbers 1 to 32 name squares of the board: the truncating
      arithmetic puts 0, -1 and -2 just left of the top row, lower numbers
      above it and numbers beyond 32 below it. */
  lemma SquareOfOutside(n: int)
    requires IsInt32(n) && (n < 1 || n > 32)
    ensures !OnBoard(SquareOf(n))
    ensures -2 <= n <= 0 ==> SquareOf(n) == Pos(0, 2 * n - 1)
  {
    var k := Wrap32(n - 1);
    if n == MinInt32 {
      assert k == MaxInt32;
    } else if n > 32 {
      assert k == n - 1 && JDiv(k, 4) >= 8;
    } else if n >= -2 {
      assert k == n - 1 && JDiv(k, 4) == 0 && JRem(k, 4) == k;
    } else {
      assert k == n - 1 && JDiv(k, 4) <= -1;
    }
  }

  /** Numbering a dark square and reading the number back gives the square. */
  lemma SquareOfNumber(p: Pos)
    requires OnBoard(p) && Playable(p)
    ensures SquareOf(SquareNumber(p)) == p
  {
    var h := p.c / 2;
    assert JDiv(p.c, 2) == h;
    var k := p.r * 4 + h;
    assert 0 <= h < 4 && 0 <= k < 32;
    assert Wrap32(SquareNumber(p) - 1) == k;
    assert k / 4 == p.r && k % 4 == h;
    assert JDiv(k, 4) == p.r && JRem(k, 4) == h;
    assert JRem(p.r, 2) == p.r % 2;
    DarkColumn(p.r, p.c, h);
    assert SquareOf(SquareNumber(p)) == Pos(p.r, h * 2 + (if p.r % 2 == 0 then 1 else 0));
  }

  /** On a dark square the column is fixed by its half and the row's parity. */
  lemma DarkColumn(r: int, c: int, h: int)
    requires 0 <= c && h == c / 2 && (r + c) % 2 != 0
    ensures c == h * 2 + (if r % 2 == 0 then 1 else 0)
  {
    assert c == 2 * h || c == 2 * h + 1;
    if c == 2 * h {
      assert (r + 2 * h) % 2 == r % 2;
    } else {
      assert (r + 2 * h + 1) % 2 != 0;
      assert (r + 2 * h) % 2 == r % 2;
    }
  }

  /** Every number from 1 to 32 is the number of the dark square it reads
      as: the numbering is a bijection between 1..32 and the dark squares. */
  lemma NumberOfSquare(n: int)
    requires 1 <= n <= 32
    ensures OnBoard(SquareOf(n)) && Playable(SquareOf(n))
    ensures SquareNumber(SquareOf(n)) == n
  {
  }

  /** Reading back the notation of a move between dark squares gives its
      first and last square. */
  lemma NotationRoundTrip(m: Move)
    requires |m| >= 1 && OnBoard(m[0]) && OnBoard(m[|m| - 1])
    requires Playable(m[0]) && Playable(m[|m| - 1])
    ensures ParseMoveNotation(MoveNotation(m)) == Parsed([m[0], m[|m| - 1]])
  {
    NotationShape(m);
    var na, nb := SquareNumber(m[0]), SquareNumber(m[|m| - 1]);
    var a, b := NatToString(na), NatToString(nb);
    var sep := Separator(m);
    var s := MoveNotation(m);
    assert Join(sep, [a, b]) == s by {
      assert [a, b][..1] == [a];
    }
    assert (if 'x' in s then 'x' else '-') == sep;
    SplitJoin([a, b], sep);
    ParseIntToString(na);
    ParseIntToString(nb);
    SquareOfNumber(m[0]);
    SquareOfNumber(m[|m| - 1]);
  }

  /** Every character of a field of s is a character of s. */
  lemma {:induction false} FieldChars(s: string, sep: char, i: int, j: int)
    requires 0 <= i < |Fields(s, sep)| && 0 <= j < |Fields(s, sep)[i]|
    ensures Fields(s, sep)[i][j] in s
  {
    if |s| > 0 {
      var rest := Fields(s[1..], sep);
      if s[0] == sep {
        if i > 0 {
          FieldChars(s[1..], sep, i - 1, j);
        }
      } else if i == 0 {
        if j > 0 {
          FieldChars(s[1..], sep, 0, j - 1);
        }
      } else {
        FieldChars(s[1..], sep, i, j);
      }
    }
  }

  /** Text without a digit is never read as a move: parseMoveNotation
      returns null for it, or throws when it has no field at all. */
  lemma ParseNeedsDigits(s: string)
    requires forall i :: 0 <= i < |s| ==> !IsDigit(s[i])
    ensures !ParseMoveNotation(s).Parsed?
  {
    if s != "" {
      var sep := if 'x' in s then 'x' else '-';
      var parts := Split(s, sep);
      if |parts| > 0 {
        var p := parts[0];
        if |p| > 0 && sep in s {
          FieldChars(s, sep, 0, |p| - 1);
          FieldChars(s, sep, 0, 0);
        }
        assert ParseInt(p) == None;
      }
    }
  }

  /** The empty notation is read as null. */
  lemma ParseEmpty()
    ensures ParseMoveNotation("") == NoMove
  {
  }

  /** A bare number, with no separator after it, makes parseMoveNotation
      throw instead of returning null: the second field is read without
      checking that there is one. */
  lemma ParseBareNumberThrows(s: string)
    requires s != "" && AllDigits(s) && ParseInt(s).Some?
    ensures ParseMoveNotation(s) == IndexOutOfBounds
  {
    assert 'x' !in s && '-' !in s by {
      assert forall i :: 0 <= i < |s| ==> IsDigit(s[i]);
    }
  }

  /** The input "15" is one. */
  lemma ParseFifteenThrows()
    ensures ParseMoveNotation("15") == IndexOutOfBounds
  {
    assert DigitsValue("15") == 15 by {
      assert "15"[..1] == "1";
    }
    ParseBareNumberThrows("15");
  }

  /** parseMoveNotation as it is evidently meant to behave: null for every
      text that does not hold two numbers around the separator. */
  function ParseMoveNotationChecked(s: string): (r: Option<Move>)
    ensures r.Some? ==> |r.value| == 2
  {
    if s == "" then None
    else
      var parts := Split(s, if 'x' in s then 'x' else '-');
      if |parts| < 2 then None
      else match (ParseInt(parts[0]), ParseInt(parts[1]))
        case (Some(first), Some(last)) => Some([SquareOf(first), SquareOf(last)])
        case _ => None
  }

  /** The corrected reading never throws, differs from the code as written
      only on the inputs that throw there, and still reads back every
      notation of a move between dark squares. */
  lemma ParseCheckedAgrees(s: string)
    ensures ParseMoveNotation(s) != IndexOutOfBounds ==>
      ParseMoveNotationChecked(s) ==
        (if ParseMoveNotation(s).Parsed? then Some(ParseMoveNotation(s).squares) else None)
    ensures ParseMoveNotation(s) == IndexOutOfBounds ==> ParseMoveNotationChecked(s) == None
  {
  }

  lemma ParseCheckedRoundTrip(m: Move)
    requires |m| >= 1 && OnBoard(m[0]) && OnBoard(m[|m| - 1])
    requires Playable(m[0]) && Playable(m[|m| - 1])
    ensures ParseMoveNotationChecked(MoveNotation(m)) == Some([m[0], m[|m| - 1]])
  {
    NotationRoundTrip(m);
    ParseCheckedAgrees(MoveNotation(m));
  }

  // ---------------------------------------------------------- learnFromGame

  /** The book key of the position after the first i moves of a game. */
  function HistoryKey(moves: seq<string>, i: int): string
    requires 0 <= i <= |moves|
  {
    if i == 0 then "" else Join(',', moves[..i])
  }

  /** What the book says of a move from a history, if anything. */
  function Lookup(book: Book, key: string, move: string): Option<int>
  {
    if key in book && move in book[key] then Some(book[key][move]) else None
  }

  /** One step of learnFromGame: the history's scores (an empty map when the
      book has none yet), where the move played gets the outcome added to its
      score (0 for a move never seen), in Java int arithmetic. */
  function Credit(book: Book, key: string, move: string, outcome: int): Book
  {
    var scores := if key in book then book[key] else map[];
    book[key := scores[move := Wrap32(ScoreOrZero(book, key, move) + outcome)]]
  }

  /** The score of a move from a history, 0 when the book has none. */
  function ScoreOrZero(book: Book, key: string, move: string): int
  {
    if key in book && move in book[key] then book[key][move] else 0
  }

  /** A move's score or 0 is what the book says of it, or 0. */
  lemma ScoreOrZeroLookup(book: Book, key: string, move: string)
    ensures ScoreOrZero(book, key, move) == match Lookup(book, key, move) case Some(v) => v case None => 0
  {
  }

  /** Crediting one move changes what the book says of that move only. */
  lemma CreditLookup(book: Book, key: string, move: string, outcome: int, key': string, move': string)
    ensures Lookup(Credit(book, key, move, outcome), key', move') ==
      if key' == key && move' == move then Some(Wrap32(ScoreOrZero(book, key, move) + outcome))
      else Lookup(book, key', move')
  {
  }

  /** The keys of the positions a game passes through, before each of its
      moves. */
  function HistoryKeys(moves: seq<string>): seq<string>
  {
    seq(|moves|, i requires 0 <= i < |moves| => HistoryKey(moves, i))
  }

  /** The book after crediting, for each i < n, move i from key i. */
  function CreditUpTo(book: Book, keys: seq<string>, moves: seq<string>, outcome: int, n: int): Book
    requires 0 <= n <= |keys| && n <= |moves|
  {
    if n == 0 then book
    else Credit(CreditUpTo(book, keys, moves, outcome, n - 1), keys[n - 1], moves[n - 1], outcome)
  }

  /** learnFromGame: every move of the game is credited with the outcome,
      from the history that precedes it. */
  function Learned(book: Book, moves: seq<string>, outcome: int): Book
  {
    CreditUpTo(book, HistoryKeys(moves), moves, outcome, |moves|)
  }

  /** All scores are Java ints. */
  predicate Int32Scores(book: Book)
  {
    forall key, move :: key in book && move in book[key] ==> IsInt32(book[key][move])
  }

  /** Learning from a game without moves leaves the book as it was. */
  lemma LearnEmpty(book: Book, outcome: int)
    ensures Learned(book, [], outcome) == book
  {
  }

  /** Crediting adds the keys used to the book and removes none. */
  lemma {:induction false} CreditKeys(book: Book, keys: seq<string>, moves: seq<string>, outcome: int, n: int)
    requires 0 <= n <= |keys| && n <= |moves|
    ensures CreditUpTo(book, keys, moves, outcome, n).Keys == book.Keys + set i | 0 <= i < n :: keys[i]
  {
    if n > 0 {
      CreditKeys(book, keys, moves, outcome, n - 1);
      var added := set i | 0 <= i < n :: keys[i];
      assert added == (set i | 0 <= i < n - 1 :: keys[i]) + {keys[n - 1]};
    }
  }

  /** Learning adds the histories of the game to the book and removes none. */
  lemma LearnKeys(book: Book, moves: seq<string>, outcome: int)
    ensures Learned(book, moves, outcome).Keys == book.Keys + set i | 0 <= i < |moves| :: HistoryKey(moves, i)
  {
    var keys := HistoryKeys(moves);
    CreditKeys(book, keys, moves, outcome, |moves|);
    forall i | 0 <= i < |moves|
      ensures keys[i] == HistoryKey(moves, i)
    {
    }
    assert (set i | 0 <= i < |moves| :: keys[i]) == set i | 0 <= i < |moves| :: HistoryKey(moves, i);
  }

  /** A move not credited from a key keeps its score there, or its absence. */
  lemma {:induction false} LearnUnplayed(book: Book, keys: seq<string>, moves: seq<string>, outcome: int, n: int,
                                         key: string, move: string)
    requires 0 <= n <= |keys| && n <= |moves|
    requires forall i :: 0 <= i < n ==> keys[i] != key || moves[i] != move
    ensures Lookup(CreditUpTo(book, keys, moves, outcome, n), key, move) == Lookup(book, key, move)
  {
    if n > 0 {
      LearnUnplayed(book, keys, moves, outcome, n - 1, key, move);
      CreditElsewhere(CreditUpTo(book, keys, moves, outcome, n - 1), book, keys[n - 1], moves[n - 1], outcome, key, move);
    }
  }

  /** Crediting another move keeps what a book says of this one. */
  lemma CreditElsewhere(before: Book, book: Book, k: string, m: string, outcome: int, key: string, move: string)
    requires k != key || m != move
    requires Lookup(before, key, move) == Lookup(book, key, move)
    ensures Lookup(Credit(before, k, m, outcome), key, move) == Lookup(book, key, move)
  {
    CreditLookup(before, k, m, outcome, key, move);
  }

  /** No key occurs twice. */
  predicate DistinctKeys(keys: seq<string>)
  {
    forall i, j :: 0 <= i < j < |keys| ==> keys[i] != keys[j]
  }

  /** Each move credited gets its old score (0 if new) plus the outcome,
      when the keys are distinct. */
  lemma {:induction false} LearnPlayed(book: Book, keys: seq<string>, moves: seq<string>, outcome: int, n: int, i: int)
    requires 0 <= i < n <= |keys| && n <= |moves| && DistinctKeys(keys)
    ensures Lookup(CreditUpTo(book, keys, moves, outcome, n), keys[i], moves[i]) ==
      Some(Wrap32(ScoreOrZero(book, keys[i], moves[i]) + outcome))
  {
    var before := CreditUpTo(book, keys, moves, outcome, n - 1);
    if n - 1 == i {
      LearnUnplayed(book, keys, moves, outcome, n - 1, keys[i], moves[i]);
      CreditAgain(before, book, keys[i], moves[i], outcome);
    } else {
      LearnPlayed(book, keys, moves, outcome, n - 1, i);
      CreditElsewhere(before, before, keys[n - 1], moves[n - 1], outcome, keys[i], moves[i]);
    }
  }

  /** Crediting a move in a book that says of it what another book says
      gives that other book's score (or 0) plus the outcome. */
  lemma CreditAgain(before: Book, book: Book, key: string, move: string, outcome: int)
    requires Lookup(before, key, move) == Lookup(book, key, move)
    ensures Lookup(Credit(before, key, move, outcome), key, move) == Some(Wrap32(ScoreOrZero(book, key, move) + outcome))
  {
    ScoreOrZeroLookup(before, key, move);
    ScoreOrZeroLookup(book, key, move);
  }

  /** The histories of a game are distinct keys. */
  predicate DistinctHistories(moves: seq<string>)
  {
    forall i, j :: 0 <= i < j <= |moves| ==> HistoryKey(moves, i) != HistoryKey(moves, j)
  }

  /** Move notations are non-empty and hold no ','. */
  predicate Notations(moves: seq<string>)
  {
    forall i :: 0 <= i < |moves| ==> moves[i] != "" && ',' !in moves[i]
  }

  /** The key after i moves holds i - 1 commas. */
  lemma HistoryCommas(moves: seq<string>, i: int)
    requires Notations(moves) && 1 <= i <= |moves|
    ensures Occurrences(HistoryKey(moves, i), ',') == i - 1
    ensures HistoryKey(moves, i) != ""
  {
    var prefix := moves[..i];
    assert forall k :: 0 <= k < |prefix| ==> ',' !in prefix[k];
    JoinSeparatorCount(prefix, ',');
    JoinNonEmpty(prefix, ',');
  }

  /** Games written in notation have distinct history keys. */
  lemma NotationsHaveDistinctHistories(moves: seq<string>)
    requires Notations(moves)
    ensures DistinctHistories(moves)
    ensures DistinctKeys(HistoryKeys(moves))
  {
    forall i, j | 0 <= i < j <= |moves|
      ensures HistoryKey(moves, i) != HistoryKey(moves, j)
    {
      HistoryCommas(moves, j);
      if i > 0 {
        HistoryCommas(moves, i);
      }
    }
    var keys := HistoryKeys(moves);
    forall i, j | 0 <= i < j < |keys|
      ensures keys[i] != keys[j]
    {
      assert keys[i] == HistoryKey(moves, i) && keys[j] == HistoryKey(moves, j);
    }
  }

  /** Learning from a game in notation: each move it played gets its old
      score (0 if new) plus the outcome; every other move keeps its score,
      or its absence. */
  lemma LearnedScores(book: Book, moves: seq<string>, outcome: int, key: string, move: string)
    requires Notations(moves)
    ensures forall i :: 0 <= i < |moves| && key == HistoryKey(moves, i) && move == moves[i] ==>
      Lookup(Learned(book, moves, outcome), key, move) == Some(Wrap32(ScoreOrZero(book, key, move) + outcome))
    ensures (forall i :: 0 <= i < |moves| ==> key != HistoryKey(moves, i) || move != moves[i]) ==>
      Lookup(Learned(book, moves, outcome), key, move) == Lookup(book, key, move)
  {
    var keys := HistoryKeys(moves);
    NotationsHaveDistinctHistories(moves);
    forall i | 0 <= i < |moves| && key == HistoryKey(moves, i) && move == moves[i]
      ensures Lookup(Learned(book, moves, outcome), key, move) == Some(Wrap32(ScoreOrZero(book, key, move) + outcome))
    {
      assert keys[i] == key;
      LearnPlayed(book, keys, moves, outcome, |moves|, i);
    }
    if forall i :: 0 <= i < |moves| ==> key != HistoryKey(moves, i) || move != moves[i] {
      forall i | 0 <= i < |moves|
        ensures keys[i] != key || moves[i] != move
      {
        assert keys[i] == HistoryKey(moves, i);
      }
      LearnUnplayed(book, keys, moves, outcome, |moves|, key, move);
    }
  }

  /** One pass of learnFromGame's loop: the move played after the i-th
      history gets the outcome added to its score. */
  method CreditMove(ghost start: Book, moves: seq<string>, outcome: int, i: int, learnt: Book) returns (learnt': Book)
    requires 0 <= i < |moves| && learnt == CreditUpTo(start, HistoryKeys(moves), moves, outcome, i)
    ensures learnt' == CreditUpTo(start, HistoryKeys(moves), moves, outcome, i + 1)
  {
    var key := if i == 0 then "" else Join(',', moves[..i]);
    assert HistoryKeys(moves)[i] == key;
    learnt' := Credit(learnt, key, moves[i], outcome);
  }

  /** Crediting keeps every score a Java int. */
  lemma {:induction false} LearnKeepsInt32(book: Book, keys: seq<string>, moves: seq<string>, outcome: int, n: int)
    requires 0 <= n <= |keys| && n <= |moves| && Int32Scores(book)
    ensures Int32Scores(CreditUpTo(book, keys, moves, outcome, n))
  {
    if n > 0 {
      LearnKeepsInt32(book, keys, moves, outcome, n - 1);
    }
  }

  // ------------------------------------------------------------ getBookMove

  /** What getBookMove may answer for a history: null when the book does not
      know it or none of its moves has a score of at least 1; otherwise one
      of its best-scored moves. */
  predicate IsBookMove(book: Book, history: seq<string>, r: Option<string>)
  {
    var key := Join(',', history);
    if key !in book || forall move :: move in book[key] ==> book[key][move] < 1 then r == None
    else
      r.Some? && r.value in book[key] && book[key][r.value] >= 1 &&
      forall move :: move in book[key] ==> book[key][move] <= book[key][r.value]
  }

  /** A book learnt from one won game, starting empty, answers each position
      of that game with the move the game played there. */
  lemma LearnedGameReplays(moves: seq<string>, i: int, r: Option<string>)
    requires Notations(moves) && 0 <= i < |moves|
    requires IsBookMove(Learned(map[], moves, 1), moves[..i], r)
    ensures r == Some(moves[i])
  {
    var book := Learned(map[], moves, 1);
    var key := HistoryKey(moves, i);
    assert Join(',', moves[..i]) == key;
    LearnedScores(map[], moves, 1, key, moves[i]);
    NotationsHaveDistinctHistories(moves);
    forall move | move in book[key]
      ensures move == moves[i]
    {
      if move != moves[i] {
        forall j | 0 <= j < |moves|
          ensures key != HistoryKey(moves, j) || move != moves[j]
        {
          if j < i {
            assert HistoryKey(moves, j) != HistoryKey(moves, i);
          } else if j > i {
            assert HistoryKey(moves, i) != HistoryKey(moves, j);
          }
        }
        LearnedScores(map[], moves, 1, key, move);
        assert false;
      }
    }
  }

  // ------------------------------------------------------- the file format

  /** One entry of a line, "move,score". */
  function EntryText(move: string, score: int): string
  {
    move + [','] + IntToString(score)
  }

  /** The entries of one history's scores, in the order given. */
  function EntriesText(scores: Scores, order: seq<string>): seq<string>
    requires forall i :: 0 <= i < |order| ==> order[i] in scores
  {
    seq(|order|, i requires 0 <= i < |order| => EntryText(order[i], scores[order[i]]))
  }

  /** saveOpeningBook's line for one history: the key, ':', then the
      entries joined by ';'. */
  function LineText(key: string, scores: Scores, order: seq<string>): string
    requires forall i :: 0 <= i < |order| ==> order[i] in scores
  {
    key + [':'] + Join(';', EntriesText(scores, order))
  }

  /** order lists every element of keys exactly once: a HashMap iteration. */
  predicate Lists(order: seq<string>, keys: set<string>)
  {
    (forall i :: 0 <= i < |order| ==> order[i] in keys) &&
    (forall k :: k in keys ==> k in order) &&
    (forall i, j :: 0 <= i < j < |order| ==> order[i] != order[j])
  }

  /** Part way through a HashMap iteration over all: order lists, once
      each, the elements already visited, and remaining holds the rest. */
  predicate Visiting(order: seq<string>, remaining: set<string>, all: set<string>)
  {
    remaining <= all &&
    (forall i :: 0 <= i < |order| ==> order[i] in all && order[i] !in remaining) &&
    (forall k :: k in all && k !in remaining ==> k in order) &&
    (forall i, j :: 0 <= i < j < |order| ==> order[i] != order[j])
  }

  /** Visiting one more element keeps the iteration's state. */
  lemma VisitStep(order: seq<string>, remaining: set<string>, all: set<string>, k: string)
    requires Visiting(order, remaining, all) && k in remaining
    ensures Visiting(order + [k], remaining - {k}, all)
  {
  }

  /** An iteration with nothing left has listed every element once. */
  lemma VisitDone(order: seq<string>, all: set<string>)
    requires Visiting(order, {}, all)
    ensures Lists(order, all)
  {
  }

  /** lines is what saveOpeningBook writes for book when it visits the
      histories in the order keys and the moves of keys[i] in the order
      orders[i]: one line per history. */
  predicate SavedAs(book: Book, lines: seq<string>, keys: seq<string>, orders: seq<seq<string>>)
  {
    Lists(keys, book.Keys) && SavedLines(book, lines, keys, orders)
  }

  /** lines[i] is the line saveOpeningBook writes for the history keys[i]
      when it visits its moves in the order orders[i]. */
  predicate SavedLines(book: Book, lines: seq<string>, keys: seq<string>, orders: seq<seq<string>>)
  {
    |orders| == |keys| && |lines| == |keys| &&
    forall i :: 0 <= i < |keys| ==>
      keys[i] in book && Lists(orders[i], book[keys[i]].Keys) &&
      lines[i] == LineText(keys[i], book[keys[i]], orders[i])
  }

  /** One more line written keeps the lines in step with the histories. */
  lemma SavedLinesAppend(book: Book, lines: seq<string>, keys: seq<string>, orders: seq<seq<string>>,
                         key: string, order: seq<string>)
    requires SavedLines(book, lines, keys, orders)
    requires key in book && Lists(order, book[key].Keys)
    ensures SavedLines(book, lines + [LineText(key, book[key], order)], keys + [key], orders + [order])
  {
  }

  /** The entries of one line read in order into scores: an entry with two
      fields sets its move's score, any other entry is skipped, and a score
      that is not an int is a NumberFormatException (None). */
  function ReadEntries(scores: Scores, entries: seq<string>): Option<Scores>
    decreases |entries|
  {
    if |entries| == 0 then Some(scores)
    else
      var fields := Split(entries[0], ',');
      if |fields| != 2 then ReadEntries(scores, entries[1..])
      else match ParseInt(fields[1])
        case None => None
        case Some(v) => ReadEntries(scores[fields[0] := v], entries[1..])
  }

  /** One line of the file read into the book: a line without ':' is
      skipped; otherwise the text before the first ':' is a key whose scores
      become those of the entries after it, replacing any the key had; None
      when a score is not an int. */
  function ReadLine(book: Book, line: string): Option<Book>
  {
    var parts := SplitFirst(line, ':');
    if |parts| != 2 then Some(book)
    else match ReadEntries(map[], Split(parts[1], ';'))
      case None => None
      case Some(scores) => Some(book[parts[0] := scores])
  }

  /** loadOpeningBook: the lines are read in order until one holds a score
      that is not an int; the book keeps what was read before it. */
  function LoadLines(book: Book, lines: seq<string>): Book
    decreases |lines|
  {
    if |lines| == 0 then book
    else match ReadLine(book, lines[0])
      case None => book
      case Some(next) => LoadLines(next, lines[1..])
  }

  /** A line without ':' changes nothing. */
  lemma LineWithoutColonSkipped(book: Book, line: string)
    requires ':' !in line
    ensures ReadLine(book, line) == Some(book)
  {
  }

  /** Removing an entry that does not have exactly two fields changes
      nothing: such entries are skipped. */
  lemma {:induction false} MalformedEntrySkipped(scores: Scores, entries: seq<string>, j: int)
    requires 0 <= j < |entries| && |Split(entries[j], ',')| != 2
    ensures ReadEntries(scores, entries) == ReadEntries(scores, entries[..j] + entries[j + 1..])
    decreases |entries|
  {
    var rest := entries[..j] + entries[j + 1..];
    if j == 0 {
      assert rest == entries[1..];
    } else {
      assert rest[0] == entries[0];
      assert rest[1..] == entries[1..][..j - 1] + entries[1..][j..];
      var fields := Split(entries[0], ',');
      if |fields| == 2 && ParseInt(fields[1]).Some? {
        MalformedEntrySkipped(scores[fields[0] := ParseInt(fields[1]).value], entries[1..], j - 1);
      } else if |fields| != 2 {
        MalformedEntrySkipped(scores, entries[1..], j - 1);
      }
    }
  }

  /** Whether a line stops the load does not depend on the book. */
  lemma ReadLineFailure(book: Book, other: Book, line: string)
    ensures ReadLine(book, line).None? <==> ReadLine(other, line).None?
  {
  }

  /** Once a line holds a score that is not an int, the load ends: neither
      that line nor any after it is read. */
  lemma {:induction false} BadScoreEndsLoad(book: Book, before: seq<string>, bad: string, after: seq<string>)
    requires ReadLine(map[], bad) == None
    ensures LoadLines(book, before + [bad] + after) == LoadLines(book, before)
    decreases |before|
  {
    var lines := before + [bad] + after;
    if |before| == 0 {
      assert lines[0] == bad;
      ReadLineFailure(book, map[], bad);
    } else {
      assert lines[0] == before[0];
      assert lines[1..] == before[1..] + [bad] + after;
      match ReadLine(book, before[0])
      case None =>
      case Some(next) =>
        BadScoreEndsLoad(next, before[1..], bad, after);
    }
  }

  /** A line that reads without error, whatever book it is read into. */
  predicate Reads(line: string)
  {
    ReadLine(map[], line).Some?
  }

  /** Setting a key and then merging equals merging the setting in. */
  lemma UpdateThenMerge<K, V>(m: map<K, V>, k: K, v: V, r: map<K, V>)
    ensures m[k := v] + r == m + (map[k := v] + r)
  {
  }

  /** A merge that sets a key hides what the key was set to before. */
  lemma MergeOverrides<K, V>(m: map<K, V>, k: K, v: V, r: map<K, V>)
    requires k in r
    ensures m[k := v] + r == m + r
  {
  }

  /** Lines that all read add to the book what they would add to an empty
      one, overriding the keys they name. */
  lemma {:induction false} LoadOnto(book: Book, lines: seq<string>)
    requires forall i :: 0 <= i < |lines| ==> Reads(lines[i])
    ensures LoadLines(book, lines) == book + LoadLines(map[], lines)
    decreases |lines|
  {
    if |lines| == 0 {
      assert book + map[] == book;
    } else {
      var parts := SplitFirst(lines[0], ':');
      assert Reads(lines[0]);
      if |parts| == 2 {
        var key := parts[0];
        var scores := ReadEntries(map[], Split(parts[1], ';')).value;
        LoadOnto(book[key := scores], lines[1..]);
        LoadOnto(map[key := scores], lines[1..]);
        UpdateThenMerge(book, key, scores, LoadLines(map[], lines[1..]));
      } else {
        LoadOnto(book, lines[1..]);
      }
    }
  }

  /** Loading lines that all read, then one more, reads that one into the
      book loaded so far. */
  lemma {:induction false} LoadThenLine(book: Book, lines: seq<string>, line: string)
    requires forall i :: 0 <= i < |lines| ==> Reads(lines[i])
    requires Reads(line)
    ensures ReadLine(LoadLines(book, lines), line).Some?
    ensures LoadLines(book, lines + [line]) == ReadLine(LoadLines(book, lines), line).value
    decreases |lines|
  {
    ReadLineFailure(LoadLines(book, lines), map[], line);
    if |lines| == 0 {
      assert [] + [line] == [line];
    } else {
      assert Reads(lines[0]);
      ReadLineFailure(book, map[], lines[0]);
      var next := ReadLine(book, lines[0]).value;
      assert (lines + [line])[1..] == lines[1..] + [line];
      LoadThenLine(next, lines[1..], line);
    }
  }

  /** Of two lines for the same history, with lines for any histories in
      between and all of them reading without error, the later line is all
      that is kept: the book is the one loaded without the earlier line. */
  lemma LaterLineReplaces(book: Book, first: string, mid: seq<string>, second: string)
    requires |SplitFirst(first, ':')| == 2 && |SplitFirst(second, ':')| == 2
    requires SplitFirst(first, ':')[0] == SplitFirst(second, ':')[0]
    requires Reads(first) && Reads(second)
    requires forall i :: 0 <= i < |mid| ==> Reads(mid[i])
    ensures LoadLines(book, [first] + mid + [second]) == LoadLines(book, mid + [second])
  {
    var key := SplitFirst(first, ':')[0];
    var s1 := ReadEntries(map[], Split(SplitFirst(first, ':')[1], ';')).value;
    var rest := mid + [second];
    assert ([first] + mid + [second])[0] == first;
    assert ([first] + mid + [second])[1..] == rest;
    assert ReadLine(book, first) == Some(book[key := s1]);
    assert forall i :: 0 <= i < |rest| ==> Reads(rest[i]) by {
      forall i | 0 <= i < |rest| ensures Reads(rest[i]) {
        if i < |mid| { assert rest[i] == mid[i]; }
      }
    }
    LoadOnto(book[key := s1], rest);
    LoadOnto(book, rest);
    LoadThenLine(map[], mid, second);
    MergeOverrides(book, key, s1, LoadLines(map[], rest));
  }

  /** Reading keeps every score a Java int. */
  lemma {:induction false} LoadKeepsInt32(book: Book, lines: seq<string>)
    requires Int32Scores(book)
    ensures Int32Scores(LoadLines(book, lines))
    decreases |lines|
  {
    if |lines| > 0 {
      match ReadLine(book, lines[0])
      case None =>
      case Some(next) =>
        var parts := SplitFirst(lines[0], ':');
        if |parts| == 2 {
          EntriesKeepInt32(map[], Split(parts[1], ';'));
        }
        LoadKeepsInt32(next, lines[1..]);
    }
  }

  lemma {:induction false} EntriesKeepInt32(scores: Scores, entries: seq<string>)
    requires forall m :: m in scores ==> IsInt32(scores[m])
    ensures ReadEntries(scores, entries).Some? ==>
      forall m :: m in ReadEntries(scores, entries).value ==> IsInt32(ReadEntries(scores, entries).value[m])
    decreases |entries|
  {
    if |entries| > 0 {
      var fields := Split(entries[0], ',');
      if |fields| != 2 {
        EntriesKeepInt32(scores, entries[1..]);
      } else if ParseInt(fields[1]).Some? {
        EntriesKeepInt32(scores[fields[0] := ParseInt(fields[1]).value], entries[1..]);
      }
    }
  }

  /** A book the file format can hold: no key holds ':', no move name ','
      or ';', and every score is a Java int. */
  predicate Writable(book: Book)
  {
    forall key :: key in book ==>
      (':' !in key &&
       forall move :: move in book[key] ==> ',' !in move && ';' !in move && IsInt32(book[key][move]))
  }

  /** The scores of the moves in order, taken from scores. */
  function Restrict<V>(m: map<string, V>, order: seq<string>): map<string, V>
  {
    map k | k in order && k in m :: m[k]
  }

  /** Reading an entry written by saveOpeningBook gives its move and score. */
  lemma EntryRoundTrip(move: string, score: int)
    requires ',' !in move && IsInt32(score)
    ensures Split(EntryText(move, score), ',') == [move, IntToString(score)]
    ensures ParseInt(IntToString(score)) == Some(score)
  {
    var t := IntToString(score);
    assert ',' !in t by {
      assert forall i :: 0 <= i < |t| ==> IsDigit(t[i]) || t[i] == '-';
    }
    assert Join(',', [move, t]) == EntryText(move, score) by {
      assert [move, t][..1] == [move];
    }
    SplitJoin([move, t], ',');
    ParseIntToString(score);
  }

  /** Reading the entries written for a history adds its scores. */
  lemma {:induction false} EntriesRoundTrip(acc: Scores, scores: Scores, order: seq<string>, entries: seq<string>)
    requires forall i :: 0 <= i < |order| ==> order[i] in scores
    requires forall move :: move in scores ==> ',' !in move && IsInt32(scores[move])
    requires |entries| == |order|
    requires forall i :: 0 <= i < |order| ==> entries[i] == EntryText(order[i], scores[order[i]])
    ensures ReadEntries(acc, entries) == Some(acc + Restrict(scores, order))
    decreases |order|
  {
    if |order| == 0 {
      assert Restrict(scores, order) == map[];
      assert acc + map[] == acc;
    } else {
      var move := order[0];
      EntryRoundTrip(move, scores[move]);
      EntriesRoundTrip(acc[move := scores[move]], scores, order[1..], entries[1..]);
      RestrictFirst(acc, scores, order);
    }
  }

  lemma RestrictFirst<V>(acc: map<string, V>, scores: map<string, V>, order: seq<string>)
    requires |order| > 0 && order[0] in scores
    ensures acc[order[0] := scores[order[0]]] + Restrict(scores, order[1..]) == acc + Restrict(scores, order)
  {
    var left := acc[order[0] := scores[order[0]]] + Restrict(scores, order[1..]);
    var right := acc + Restrict(scores, order);
    assert forall m :: m in order <==> m == order[0] || m in order[1..];
    assert left.Keys == right.Keys;
    forall m | m in left
      ensures left[m] == right[m]
    {
    }
  }

  /** Splitting the joined entries of a non-empty history gives them back. */
  lemma SplitEntries(scores: Scores, order: seq<string>)
    requires |order| > 0 && forall i :: 0 <= i < |order| ==> order[i] in scores
    requires forall move :: move in scores ==> ';' !in move
    ensures Split(Join(';', EntriesText(scores, order)), ';') == EntriesText(scores, order)
  {
    var entries := EntriesText(scores, order);
    forall i | 0 <= i < |entries|
      ensures ';' !in entries[i] && entries[i] != ""
    {
      var t := IntToString(scores[order[i]]);
      assert ';' !in t by {
        assert forall k :: 0 <= k < |t| ==> IsDigit(t[k]) || t[k] == '-';
      }
      assert entries[i][|order[i]|] == ',';
    }
    if |entries| == 1 {
      SplitSingle(entries[0], ';');
    } else {
      SplitJoin(entries, ';');
    }
  }

  /** A history without moves is written as an empty list of entries, which
      reads back as no scores. */
  lemma EmptyEntriesRoundTrip()
    ensures ReadEntries(map[], Split(Join(';', []), ';')) == Some(map[])
  {
    assert Split("", ';') == [""];
    assert Split("", ',') == [""];
    assert ReadEntries(map[], [""]) == ReadEntries(map[], []);
  }

  /** Reading the entries of a line written for a history restores its
      scores. */
  lemma EntriesTextRoundTrip(scores: Scores, order: seq<string>)
    requires Lists(order, scores.Keys)
    requires forall move :: move in scores ==> ',' !in move && ';' !in move && IsInt32(scores[move])
    ensures ReadEntries(map[], Split(Join(';', EntriesText(scores, order)), ';')) == Some(scores)
  {
    if |order| == 0 {
      assert EntriesText(scores, order) == [];
      EmptyEntriesRoundTrip();
      assert scores.Keys == {};
    } else {
      SplitEntries(scores, order);
      EntriesRoundTrip(map[], scores, order, EntriesText(scores, order));
      RestrictAll(scores, order);
    }
  }

  /** The scores of all the moves listed are all the scores. */
  lemma RestrictAll<V>(scores: map<string, V>, order: seq<string>)
    requires Lists(order, scores.Keys)
    ensures map[] + Restrict(scores, order) == scores
  {
    assert Restrict(scores, order).Keys == scores.Keys;
  }

  /** Reading the line written for a history restores its scores. */
  lemma LineRoundTrip(acc: Book, key: string, scores: Scores, order: seq<string>)
    requires ':' !in key && Lists(order, scores.Keys)
    requires forall move :: move in scores ==> ',' !in move && ';' !in move && IsInt32(scores[move])
    ensures ReadLine(acc, LineText(key, scores, order)) == Some(acc[key := scores])
  {
    SplitFirstJoin(key, Join(';', EntriesText(scores, order)), ':');
    EntriesTextRoundTrip(scores, order);
  }

  /** Reading the lines written for some histories restores them. */
  lemma {:induction false} LinesRoundTrip(acc: Book, book: Book, keys: seq<string>, orders: seq<seq<string>>, lines: seq<string>)
    requires Writable(book) && |orders| == |keys| && |lines| == |keys|
    requires forall i :: 0 <= i < |keys| ==>
      keys[i] in book && Lists(orders[i], book[keys[i]].Keys) &&
      lines[i] == LineText(keys[i], book[keys[i]], orders[i])
    ensures LoadLines(acc, lines) == acc + Restrict(book, keys)
    decreases |keys|
  {
    if |keys| == 0 {
      assert Restrict(book, keys) == map[];
      assert acc + map[] == acc;
    } else {
      var key := keys[0];
      LineRoundTrip(acc, key, book[key], orders[0]);
      LinesRoundTrip(acc[key := book[key]], book, keys[1..], orders[1..], lines[1..]);
      RestrictFirst(acc, book, keys);
    }
  }

  /** Whatever order saveOpeningBook visits the book in, loading what it
      wrote gives the book back, when the book is one the format can hold. */
  lemma SaveLoadRoundTrip(book: Book, lines: seq<string>, keys: seq<string>, orders: seq<seq<string>>)
    requires Writable(book) && SavedAs(book, lines, keys, orders)
    ensures LoadLines(map[], lines) == book
  {
    LinesRoundTrip(map[], book, keys, orders, lines);
    RestrictAll(book, keys);
  }

  /** Crediting moves free of ',' and ';' from keys free of ':' keeps a
      book the format can hold. */
  lemma {:induction false} LearnKeepsWritable(book: Book, keys: seq<string>, moves: seq<string>, outcome: int, n: int)
    requires 0 <= n <= |keys| && n <= |moves| && Writable(book)
    requires forall i :: 0 <= i < n ==> ':' !in keys[i] && ',' !in moves[i] && ';' !in moves[i]
    ensures Writable(CreditUpTo(book, keys, moves, outcome, n))
  {
    if n > 0 {
      LearnKeepsWritable(book, keys, moves, outcome, n - 1);
      CreditKeepsWritable(CreditUpTo(book, keys, moves, outcome, n - 1), keys[n - 1], moves[n - 1], outcome);
    }
  }

  /** A game whose moves hold none of the format's separators leaves a book
      the format can hold as one it can still hold. */
  lemma LearnedWritable(book: Book, moves: seq<string>, outcome: int)
    requires Writable(book)
    requires forall i :: 0 <= i < |moves| ==> ',' !in moves[i] && ';' !in moves[i] && ':' !in moves[i]
    ensures Writable(Learned(book, moves, outcome))
  {
    var keys := HistoryKeys(moves);
    forall i | 0 <= i < |moves|
      ensures ':' !in keys[i]
    {
      if i > 0 {
        var prefix := moves[..i];
        assert forall k :: 0 <= k < |prefix| ==> ':' !in prefix[k];
        JoinAvoids(prefix, ',', ':');
      }
    }
    LearnKeepsWritable(book, keys, moves, outcome, |moves|);
  }

  lemma CreditKeepsWritable(book: Book, key: string, move: string, outcome: int)
    requires Writable(book) && ':' !in key && ',' !in move && ';' !in move
    ensures Writable(Credit(book, key, move, outcome))
  {
  }

  /** Joining strings that avoid ch with another separator avoids ch. */
  lemma {:induction false} JoinAvoids(xs: seq<string>, sep: char, ch: char)
    requires sep != ch && forall i :: 0 <= i < |xs| ==> ch !in xs[i]
    ensures ch !in Join(sep, xs)
    decreases |xs|
  {
    if |xs| > 1 {
      JoinAvoids(xs[..|xs| - 1], sep, ch);
    }
  }

  // ------------------------------------------------------------- the logger

  /** The moves of scores in some order, with their entries "move,score":
      the inner loop of saveOpeningBook. */
  method ScoreEntries(scores: Scores) returns (entries: seq<string>, ghost order: seq<string>)
    ensures Lists(order, scores.Keys)
    ensures entries == EntriesText(scores, order)
  {
    entries := [];
    order := [];
    var remaining := scores.Keys;
    while remaining != {}
      invariant Visiting(order, remaining, scores.Keys)
      invariant entries == EntriesText(scores, order)
      decreases |remaining|
    {
      var move :| move in remaining;
      VisitStep(order, remaining, scores.Keys, move);
      entries := entries + [EntryText(move, scores[move])];
      order := order + [move];
      remaining := remaining - {move};
    }
    VisitDone(order, scores.Keys);
  }

  /** GameLogger's state: the opening book in memory. The book file is the
      sequence of its lines, read by the constructor and written back by
      learnFromGame. */
  class GameLogger {
    var book: Book

    /** Every score is a Java int. */
    predicate Valid()
      reads this
    {
      Int32Scores(book)
    }

    /** The constructor: an empty book, then loadOpeningBook over the lines
        of the book file (none when there is no file). */
    constructor(lines: seq<string>)
      ensures book == LoadLines(map[], lines)
      ensures Valid()
    {
      book := map[];
      new;
      LoadOpeningBook(lines);
    }

    /** loadOpeningBook: the lines are read in order into the book until one
        holds a score that is not an int. */
    method LoadOpeningBook(lines: seq<string>)
      requires Valid()
      modifies this
      ensures book == LoadLines(old(book), lines)
      ensures Valid()
    {
      LoadKeepsInt32(book, lines);
      var i := 0;
      while i < |lines|
        invariant 0 <= i <= |lines|
        invariant LoadLines(book, lines[i..]) == LoadLines(old(book), lines)
        decreases |lines| - i
      {
        var parts := SplitFirst(lines[i], ':');
        if |parts| == 2 {
          var scores := ReadScores(Split(parts[1], ';'));
          if scores.None? {
            assert lines[i..][0] == lines[i];
            return;
          }
          book := book[parts[0] := scores.value];
        }
        assert lines[i..][0] == lines[i] && lines[i..][1..] == lines[i + 1..];
        i := i + 1;
      }
    }

    /** learnFromGame: nothing for a game without moves; otherwise every
        move is credited with the outcome and the whole book is saved,
        returned here as the lines of the file. */
    method LearnFromGame(moves: seq<string>, outcome: int) returns (file: Option<seq<string>>, ghost keys: seq<string>, ghost orders: seq<seq<string>>)
      requires Valid()
      modifies this
      ensures book == Learned(old(book), moves, outcome)
      ensures Valid()
      ensures file.None? <==> |moves| == 0
      ensures file.Some? ==> SavedAs(book, file.value, keys, orders)
    {
      keys := [];
      orders := [];
      if |moves| == 0 {
        return None, keys, orders;
      }
      CreditGame(moves, outcome);
      LearnKeepsInt32(old(book), HistoryKeys(moves), moves, outcome, |moves|);
      var lines;
      lines, keys, orders := SaveOpeningBook();
      file := Some(lines);
    }

    /** The loop of learnFromGame: the move played after each history of
        the game gets the outcome added to its score. */
    method CreditGame(moves: seq<string>, outcome: int)
      modifies this
      ensures book == Learned(old(book), moves, outcome)
    {
      var learnt := book;
      for i := 0 to |moves|
        invariant learnt == CreditUpTo(old(book), HistoryKeys(moves), moves, outcome, i)
      {
        learnt := CreditMove(old(book), moves, outcome, i, learnt);
      }
      book := learnt;
    }

    /** saveOpeningBook: one line per history, in the book's own order. */
    method SaveOpeningBook() returns (lines: seq<string>, ghost keys: seq<string>, ghost orders: seq<seq<string>>)
      ensures SavedAs(book, lines, keys, orders)
    {
      lines := [];
      keys := [];
      orders := [];
      var remaining := book.Keys;
      while remaining != {}
        invariant Visiting(keys, remaining, book.Keys)
        invariant SavedLines(book, lines, keys, orders)
        decreases |remaining|
      {
        var key :| key in remaining;
        var entries, order := ScoreEntries(book[key]);
        SavedLinesAppend(book, lines, keys, orders, key, order);
        VisitStep(keys, remaining, book.Keys, key);
        lines := lines + [key + ":" + Join(';', entries)];
        keys := keys + [key];
        orders := orders + [order];
        remaining := remaining - {key};
      }
      VisitDone(keys, book.Keys);
    }

    /** getBookMove: the best-scored move played from this history, unless
        the book does not know it or that score is below 1. Among moves with
        the same best score, the one the map's iteration meets first. */
    method GetBookMove(history: seq<string>) returns (r: Option<string>)
      ensures IsBookMove(book, history, r)
    {
      var key := Join(',', history);
      if key !in book || |book[key]| == 0 {
        return None;
      }
      var scores := book[key];
      var best: Option<string> := None;
      var bestScore := MinInt32;
      var remaining := scores.Keys;
      while remaining != {}
        invariant remaining <= scores.Keys
        invariant forall m :: m in scores && m !in remaining ==> scores[m] <= bestScore
        invariant best.Some? ==> best.value in scores && scores[best.value] == bestScore
        invariant best.None? ==> bestScore == MinInt32
        decreases |remaining|
      {
        var move :| move in remaining;
        if scores[move] > bestScore {
          bestScore := scores[move];
          best := Some(move);
        }
        remaining := remaining - {move};
      }
      if bestScore < 1 {
        return None;
      }
      return best;
    }
  }

  /** The entries of one line read into scores, as loadOpeningBook does: None
      when a score is not an int. */
  method ReadScores(entries: seq<string>) returns (r: Option<Scores>)
    ensures r == ReadEntries(map[], entries)
  {
    var scores: Scores := map[];
    for j := 0 to |entries|
      invariant ReadEntries(scores, entries[j..]) == ReadEntries(map[], entries)
    {
      assert entries[j..][0] == entries[j] && entries[j..][1..] == entries[j + 1..];
      var fields := Split(entries[j], ',');
      if |fields| == 2 {
        var v := ParseInt(fields[1]);
        if v.None? {
          return None;
        }
        scores := scores[fields[0] := v.value];
      }
    }
    assert entries[|entries|..] == [];
    return Some(scores);
  }
}
