# GrandMaster Draughts: the rules engine and the opening book

This project models two parts of GrandMaster Draughts, an Android draughts
game for one human player against a computer player. Both parts
are modelled in Dafny, and the model's properties are proved.

The first part is the rules engine of `GameView`:
- the 8x8 board and its piece codes: 0 empty, 1 white man, 2 black man,
  3 white king, 4 black king;
- the starting layout;
- simple moves: a man steps one square forward; a king slides along a
  diagonal;
- capture chains and the longest-capture rule;
- compulsory capture and the game status;
- applying a move in place and undoing it from its `MoveRecord`;
- the static evaluation;
- the Zobrist position key;
- the transposition-table rules of the alpha-beta search.

The second part is `GameLogger`, the opening book the computer learns from its
own games. For every history (the notations of the moves played so far,
joined by `,`), the book keeps a score for each move played next. The book is
saved as lines of the form `history:move,score;move,score`.

Board positions are `Pos(row, column)`, with row 0 at the top. White moves up
and black moves down. The computer plays black, and every score is from
black's side.

The modules:
- `JavaText`: the Java library operations the code relies on, with Java's
  semantics written out (int wrap-around, truncating `/` and `%` by a positive divisor,
  `Math.max`, `Math.min`,
  `Integer.parseInt`, `Integer.toString`, `String.join`, and `String.split`
  with limit 0 and limit 2).
- `Board`: the piece codes, squares, directions, the board as a value (`Grid`)
  and as an `array2<int>`, and the starting layout.
- `Moves`: moves as square sequences, `countCapturesInSequence`, and
  `applyMove`/`undoMove` in place on an `array2<int>`.
- `SimpleMoves`: `getSimpleMovesForPiece` and `getSimpleMovesForPlayer`.
- `Captures`: `findCapturePathsRecursive`, with the king's captured square
  corrected (see Findings).
- `CapturesAsWritten`: the capture search exactly as written.
- `LegalMoves`: `findCaptureSequences`, `getAllCaptureMovesForPlayer`,
  `getAllPossibleMovesForPlayer` and `checkGameStatus`.
- `Notation`: `getMoveNotation`.
- `Evaluation`: `evaluateBoard` and `getBoardHash`.
- `BitXor`: exclusive or on naturals.
- `Transposition`: the flag rule and the table probe of `minimax`.
- `OpeningBook`: `GameLogger` as a class whose `book` field is the
  `HashMap` of histories.

Every Java method with a loop is a Dafny method with that loop. Its
postcondition ties its result, or the new state, to a specification function.
The lemmas state what the source promises about those functions.

The move generators only read the board, and they copy it before each jump.
They therefore take the board as a value. `applyMove` and `undoMove` change
the board in place, so they work on an `array2<int>`.

Two behaviours of the code are modelled as they are:
- the evaluation's edge bonus counts for black men only, so the evaluation is
  not symmetric between the two sides (`Evaluation.EdgeBonusOneSided`);
- `undoMove` does not restore a move that ends on its start square
  (`Moves.UndoLosesPieceOnClosedChain`).

## Model

GameView is `app/src/main/java/com/grandmaster/draughts/GameView.java`.
GameLogger is
`app/src/main/java/com/grandmaster/draughts/app/src/main/java/com/grandmaster/draughts/GameLogger.java`.

| member | source | states |
|---|---|---|
| Board.ResetBoard | app/src/main/java/com/grandmaster/draughts/GameView.java:341-349 | A fresh 8x8 board: black men on the dark squares of rows 0-2, white men on those of rows 5-7, all other squares empty |
| Board.Set | app/src/main/java/com/grandmaster/draughts/GameView.java:944-946 | Writing one cell of a board copy changes that square only |
| JavaText.Wrap32 | app/src/main/java/com/grandmaster/draughts/app/src/main/java/com/grandmaster/draughts/GameLogger.java:96-97 | Java int addition wraps to a 32-bit value, and is exact when the sum fits |
| JavaText.Wrap32Congruent | app/src/main/java/com/grandmaster/draughts/app/src/main/java/com/grandmaster/draughts/GameLogger.java:97 | The wrapped score differs from the exact sum by a multiple of 2^32 |
| JavaText.JDiv | app/src/main/java/com/grandmaster/draughts/app/src/main/java/com/grandmaster/draughts/GameLogger.java:174 | Java's division by a positive divisor truncates toward zero: the remainder left has the dividend's sign and is smaller than the divisor; on a non-negative dividend it agrees with Dafny's |
| JavaText.JRem | app/src/main/java/com/grandmaster/draughts/app/src/main/java/com/grandmaster/draughts/GameLogger.java:175 | Java's remainder by a positive divisor recomposes the dividend with the quotient, takes the dividend's sign and is smaller than the divisor |
| JavaText.Max | app/src/main/java/com/grandmaster/draughts/GameView.java:683 | Math.max is the larger of its arguments |
| JavaText.Min | app/src/main/java/com/grandmaster/draughts/GameView.java:684 | Math.min is the smaller of its arguments |
| JavaText.ParseInt | app/src/main/java/com/grandmaster/draughts/app/src/main/java/com/grandmaster/draughts/GameLogger.java:61 | Integer.parseInt yields only 32-bit values and rejects the empty string |
| JavaText.ParseIntToString | app/src/main/java/com/grandmaster/draughts/app/src/main/java/com/grandmaster/draughts/GameLogger.java:61 | Parsing the decimal text of any Java int gives that int back |
| JavaText.IntToString | app/src/main/java/com/grandmaster/draughts/GameView.java:461 | Integer.toString is non-empty: digits, with a leading '-' only for negatives |
| JavaText.NatToString | app/src/main/java/com/grandmaster/draughts/GameView.java:461 | The decimal text of a natural is non-empty, all digits, and denotes that natural |
| JavaText.SplitFirst | app/src/main/java/com/grandmaster/draughts/app/src/main/java/com/grandmaster/draughts/GameLogger.java:53 | split(":", 2) gives the whole line when it has no ':', otherwise the text before the first ':' and all the text after it |
| JavaText.SplitFirstJoin | app/src/main/java/com/grandmaster/draughts/app/src/main/java/com/grandmaster/draughts/GameLogger.java:53 | A key without ':' followed by ':' and any text splits back into that key and that text |
| JavaText.DropTrailingEmpty | app/src/main/java/com/grandmaster/draughts/app/src/main/java/com/grandmaster/draughts/GameLogger.java:57 | split with limit 0 drops exactly the trailing empty strings |
| JavaText.FieldsJoin | app/src/main/java/com/grandmaster/draughts/app/src/main/java/com/grandmaster/draughts/GameLogger.java:119 | The fields of a join of separator-free parts are those parts |
| JavaText.JoinFields | app/src/main/java/com/grandmaster/draughts/app/src/main/java/com/grandmaster/draughts/GameLogger.java:119 | The fields of a join followed by the separator and more text are the parts, then the fields of the rest |
| JavaText.SplitJoin | app/src/main/java/com/grandmaster/draughts/app/src/main/java/com/grandmaster/draughts/GameLogger.java:57 | split undoes String.join for two or more separator-free parts when the last part is not empty |
| JavaText.SplitSingle | app/src/main/java/com/grandmaster/draughts/app/src/main/java/com/grandmaster/draughts/GameLogger.java:57 | Text without the separator splits to itself |
| JavaText.JoinSeparatorCount | app/src/main/java/com/grandmaster/draughts/app/src/main/java/com/grandmaster/draughts/GameLogger.java:89 | Joining n >= 1 comma-free notations gives exactly n - 1 commas |
| JavaText.JoinNonEmpty | app/src/main/java/com/grandmaster/draughts/app/src/main/java/com/grandmaster/draughts/GameLogger.java:89 | A join whose first part is non-empty is non-empty |
| Moves.CountCapturesIsJumpCount | app/src/main/java/com/grandmaster/draughts/GameView.java:873-882 | The capture count of a move is the number of its steps whose rows differ by at least two |
| Moves.CountCapturesAppend | app/src/main/java/com/grandmaster/draughts/GameView.java:876-879 | One more square adds one to the count exactly when that step changes the row by at least two |
| Moves.CountCapturesInSequence | app/src/main/java/com/grandmaster/draughts/GameView.java:873-882 | The loop returns 0 for moves of fewer than two squares, and otherwise the number of capture steps |
| Moves.Mid | app/src/main/java/com/grandmaster/draughts/GameView.java:479-480 | The square a capture step jumps over lies on the board |
| Moves.SweptEffect | app/src/main/java/com/grandmaster/draughts/GameView.java:475-487 | The loop of applyMove empties exactly the midpoints of the capture steps, and records their positions in order (with the original pieces when they are distinct) |
| Moves.ApplyMoveEffect | app/src/main/java/com/grandmaster/draughts/GameView.java:464-495 | applyMove empties the start square and the capture midpoints, and records the captured pieces in order. It puts the piece on the final square, crowned exactly when a white man reaches row 0 or a black man row 7. No other square changes |
| Moves.RecordShape | app/src/main/java/com/grandmaster/draughts/GameView.java:481-482 | The record lists one captured square per capture step, in capture order |
| Moves.RestoredEffect | app/src/main/java/com/grandmaster/draughts/GameView.java:507-511 | Writing back distinct captured squares puts each piece back and leaves every other square as it was |
| Moves.ApplyUndoInverse | app/src/main/java/com/grandmaster/draughts/GameView.java:464-512 | Undo inverts apply when the final square was empty and apart from the start, and the captured squares are distinct and apart from both ends |
| Moves.UndoRestoresCaptured | app/src/main/java/com/grandmaster/draughts/GameView.java:507-511 | Every captured piece is back on its square after undo |
| Moves.UndoRestoresOther | app/src/main/java/com/grandmaster/draughts/GameView.java:497-512 | Undo restores every square that was not captured, when the move ends on an empty square away from its start |
| Moves.UndoLosesPieceOnClosedChain | app/src/main/java/com/grandmaster/draughts/GameView.java:504-505 | A move that ends on its own start square loses the moving piece on undo, because undo writes the start before it empties the final square |
| Moves.Write | app/src/main/java/com/grandmaster/draughts/GameView.java:471 | One cell write on the array is a Set on the board value |
| Moves.ApplyMove | app/src/main/java/com/grandmaster/draughts/GameView.java:464-495 | In place, the array and the returned record become the board and record that ApplyGrid specifies |
| Moves.SweepStep | app/src/main/java/com/grandmaster/draughts/GameView.java:476-486 | One pass of applyMove's loop advances the sweep by one step |
| Moves.UndoMove | app/src/main/java/com/grandmaster/draughts/GameView.java:497-512 | In place, the array becomes the board that UndoGrid specifies |
| Moves.PutBack | app/src/main/java/com/grandmaster/draughts/GameView.java:507-511 | The loop writes the captured pieces back in capture order |
| Moves.ApplyAndUndo | app/src/main/java/com/grandmaster/draughts/GameView.java:464-512 | A move applied and then undone in place leaves the array unchanged, under the inverse's conditions |
| SimpleMoves.SlideSquares | app/src/main/java/com/grandmaster/draughts/GameView.java:831-835 | A king's slide lists squares in order of distance along the diagonal, each on the board and empty |
| SimpleMoves.SlideStops | app/src/main/java/com/grandmaster/draughts/GameView.java:831 | The slide stops at the edge or at the first occupied square |
| SimpleMoves.SlideMember | app/src/main/java/com/grandmaster/draughts/GameView.java:828-835 | A square is on the slide along a direction exactly when every square up to and including it is on the board and empty |
| SimpleMoves.KingSlidesMember | app/src/main/java/com/grandmaster/draughts/GameView.java:826-836 | The slides along the first n directions hold exactly the squares reached by a clear path along one of them |
| SimpleMoves.KingTargets | app/src/main/java/com/grandmaster/draughts/GameView.java:825-836 | A king reaches exactly the squares at the end of a clear diagonal path |
| SimpleMoves.ManTargetsExactly | app/src/main/java/com/grandmaster/draughts/GameView.java:837-846 | A man reaches exactly the empty squares one row forward and one column aside: at most two |
| SimpleMoves.FromToShape | app/src/main/java/com/grandmaster/draughts/GameView.java:810-815 | One two-square move per target, in order |
| SimpleMoves.SimpleMovesExactly | app/src/main/java/com/grandmaster/draughts/GameView.java:804-820 | The player's simple moves are exactly the moves from one of its pieces to one of that piece's targets |
| SimpleMoves.MovesBeforeMember | app/src/main/java/com/grandmaster/draughts/GameView.java:806-818 | The scan up to a square holds exactly the simple moves starting before it in row-major order |
| SimpleMoves.ManMoveIsNoCapture | app/src/main/java/com/grandmaster/draughts/GameView.java:837-846 | A man's simple move never counts as a capture |
| SimpleMoves.LongKingSlideCountsAsCapture | app/src/main/java/com/grandmaster/draughts/GameView.java:877 | A king's slide over two or more rows is counted as a capture, because the count looks only at the rows |
| SimpleMoves.GetSimpleMovesForPiece | app/src/main/java/com/grandmaster/draughts/GameView.java:822-848 | The loops return the piece's targets, four directions in table order for a king, left before right for a man |
| SimpleMoves.AddSlide | app/src/main/java/com/grandmaster/draughts/GameView.java:829-835 | One direction's while loop appends the slide along it |
| SimpleMoves.GetSimpleMovesForPlayer | app/src/main/java/com/grandmaster/draughts/GameView.java:804-820 | The scan returns the simple moves in row-major order, and a move is in the result exactly when it is a simple move of the player |
| SimpleMoves.AddPieceMoves | app/src/main/java/com/grandmaster/draughts/GameView.java:808-816 | One square of the scan appends the moves of the player's piece there |
| Captures.JumpShrinksEnemies | app/src/main/java/com/grandmaster/draughts/GameView.java:943-946 | A jump moves the piece and strictly shrinks the set of enemy pieces, so the corrected search terminates |
| Captures.EnemiesMember | app/src/main/java/com/grandmaster/draughts/GameView.java:981 | The enemies of a piece are the squares isOpponent accepts |
| Captures.ManJumpsValid | app/src/main/java/com/grandmaster/draughts/GameView.java:929-937 | Each man jump lands on an empty square two steps away over an adjacent enemy |
| Captures.KingJumpsValid | app/src/main/java/com/grandmaster/draughts/GameView.java:910-927 | Each corrected king jump lands on an empty square beyond exactly one unvisited enemy, with only empty squares passed otherwise |
| Captures.JumpsOverOneEnemy | app/src/main/java/com/grandmaster/draughts/GameView.java:910-938 | Every jump found captures an enemy lying strictly between the start and an empty landing square on one diagonal |
| Captures.JumpsValid | app/src/main/java/com/grandmaster/draughts/GameView.java:910-938 | Every jump found is valid |
| Captures.ScanFromKingScan | app/src/main/java/com/grandmaster/draughts/GameView.java:915-926 | From any reachable state, the king's while loop adds exactly the jumps of the scan function |
| Captures.ScanFromStep | app/src/main/java/com/grandmaster/draughts/GameView.java:916-925 | One square of the king's loop: the first unvisited enemy is remembered (a second one stops the scan), another piece stops it, an empty square beyond the enemy is a landing |
| Captures.ScanFromStart | app/src/main/java/com/grandmaster/draughts/GameView.java:912-915 | The loop started beside the king, with no enemy yet, computes the scan |
| Captures.ScanDirection | app/src/main/java/com/grandmaster/draughts/GameView.java:911-926 | One direction of the king branch returns the scan along it |
| Captures.PossibleJumps | app/src/main/java/com/grandmaster/draughts/GameView.java:906-938 | possibleJumps is the piece's jumps in table order |
| Captures.FindCapturePathsRecursive | app/src/main/java/com/grandmaster/draughts/GameView.java:905-962 | The recursion appends to allPaths exactly the chains that Paths specifies |
| Captures.FollowJump | app/src/main/java/com/grandmaster/draughts/GameView.java:941-957 | One jump ends the chain on a crowning square, otherwise the search goes on from the landing square on the board after the jump |
| Captures.PathsDone | app/src/main/java/com/grandmaster/draughts/GameView.java:959-961 | The path itself is added once it has captured and no jump was found |
| Captures.ChainsFromSquare | app/src/main/java/com/grandmaster/draughts/GameView.java:905-962 | Every chain from a square starts there, captures on every step and at least once, and does not continue after a man is crowned |
| Captures.PathsExtend | app/src/main/java/com/grandmaster/draughts/GameView.java:947-956 | Every chain found extends the current path by capture steps |
| Captures.PathsNonEmpty | app/src/main/java/com/grandmaster/draughts/GameView.java:939-961 | The search reports a chain exactly when the piece can jump or the path has already captured |
| Captures.EveryJumpExplored | app/src/main/java/com/grandmaster/draughts/GameView.java:940-958 | No jump is ignored: each starts a reported chain, and a crowning jump is reported as the chain's last step |
| Captures.FirstStep | app/src/main/java/com/grandmaster/draughts/GameView.java:947-956 | A chain through a non-crowning jump goes to its landing square next |
| CapturesAsWritten.JumpsLandable | app/src/main/java/com/grandmaster/draughts/GameView.java:922 | Even as written, the landing square and the recorded captured square lie on the board |
| CapturesAsWritten.Search | app/src/main/java/com/grandmaster/draughts/GameView.java:905-962 | The search as written, allowed a number of nested calls: with none left it has not returned, and a piece with no jump left reports its path exactly when it has captured |
| CapturesAsWritten.MenSearch | app/src/main/java/com/grandmaster/draughts/GameView.java:928-938 | For men the search as written returns once it may nest deeper than there are enemies on the board, and it returns the chains of the corrected search |
| CapturesAsWritten.KingJumpsFour | app/src/main/java/com/grandmaster/draughts/GameView.java:908-927 | A king's jumps are its four diagonal scans, in table order |
| CapturesAsWritten.PingJumps | app/src/main/java/com/grandmaster/draughts/GameView.java:922 | A white king on (2,1) beside a black man on (1,2) has one jump, which records (1,1) as captured instead of (1,2) |
| CapturesAsWritten.PingNeverReturns | app/src/main/java/com/grandmaster/draughts/GameView.java:943-956 | From that position the search as written does not return at any recursion depth |
| CapturesAsWritten.KingSearchDiverges | app/src/main/java/com/grandmaster/draughts/GameView.java:922 | From a white king on (2,1) beside a black man on (1,2), the search as written does not return at any recursion depth: the king jumps back and forth over the man, which is never removed |
| CapturesAsWritten.KingSearchFixed | app/src/main/java/com/grandmaster/draughts/GameView.java:922 | Recording the enemy's own square, the same position yields the single chain (2,1) to (0,3) |
| CapturesAsWritten.NoEnemiesNoJumps | app/src/main/java/com/grandmaster/draughts/GameView.java:910-938 | A piece with no enemy on the board has no jump |
| LegalMoves.MaxCountIsMax | app/src/main/java/com/grandmaster/draughts/GameView.java:891-897 | The running maximum is the largest capture count, and some chain attains it |
| LegalMoves.WithCountMember | app/src/main/java/com/grandmaster/draughts/GameView.java:898-900 | The chains kept at a count are exactly the chains with that count |
| LegalMoves.LongestMember | app/src/main/java/com/grandmaster/draughts/GameView.java:890-902 | A chain is kept exactly when no chain captures more, and a kept chain captures at least once |
| LegalMoves.LongestNonEmpty | app/src/main/java/com/grandmaster/draughts/GameView.java:890-902 | Chains that all capture leave some kept |
| LegalMoves.LongestStep | app/src/main/java/com/grandmaster/draughts/GameView.java:893-900 | Each chain either joins the kept ones, replaces them, or is dropped |
| LegalMoves.LongestAppendUniform | app/src/main/java/com/grandmaster/draughts/GameView.java:857-865 | Adding a piece's chains, all of one count, joins, replaces or misses the longest so far |
| LegalMoves.ChainsCapture | app/src/main/java/com/grandmaster/draughts/GameView.java:888-889 | Every chain found from the piece's square captures at least once |
| LegalMoves.CaptureSequencesSpec | app/src/main/java/com/grandmaster/draughts/GameView.java:884-903 | findCaptureSequences keeps exactly the piece's chains that no other chain out-captures. It keeps some exactly when the piece can jump, and all that it keeps share one count of at least 1 |
| LegalMoves.KeepLongest | app/src/main/java/com/grandmaster/draughts/GameView.java:890-902 | The filtering loop returns the chains of the largest count |
| LegalMoves.FindCaptureSequences | app/src/main/java/com/grandmaster/draughts/GameView.java:884-903 | The method returns the longest chains of the piece |
| LegalMoves.LongestDominates | app/src/main/java/com/grandmaster/draughts/GameView.java:884-903 | Every chain of a piece is matched or beaten by one of its longest chains |
| LegalMoves.PieceCapturesMember | app/src/main/java/com/grandmaster/draughts/GameView.java:855-857 | A square contributes exactly the longest chains of the player's piece on it, all of one count |
| LegalMoves.CapturesBeforeMember | app/src/main/java/com/grandmaster/draughts/GameView.java:853-869 | The scan up to a square collects exactly the longest per-piece chains of the player's pieces before it |
| LegalMoves.ChainDominated | app/src/main/java/com/grandmaster/draughts/GameView.java:850-871 | Every capture chain of the player is matched or beaten by a collected one |
| LegalMoves.MaximalCollected | app/src/main/java/com/grandmaster/draughts/GameView.java:850-871 | A chain that no chain of the player out-captures is collected |
| LegalMoves.CollectedMaximal | app/src/main/java/com/grandmaster/draughts/GameView.java:850-871 | A collected chain that beats all collected chains beats every chain of the player |
| LegalMoves.AllCapturesSpec | app/src/main/java/com/grandmaster/draughts/GameView.java:850-871 | getAllCaptureMovesForPlayer returns exactly the player's capture chains that no chain of the player out-captures. They all share one count of at least 1 |
| LegalMoves.AllCapturesNonEmpty | app/src/main/java/com/grandmaster/draughts/GameView.java:850-871 | The player has a capture exactly when one of its pieces can jump |
| LegalMoves.AddPieceCaptures | app/src/main/java/com/grandmaster/draughts/GameView.java:855-866 | One square of the scan updates the running maximum and the chains that reach it |
| LegalMoves.GetAllCaptureMovesForPlayer | app/src/main/java/com/grandmaster/draughts/GameView.java:850-871 | The scan returns the longest chains over all the player's pieces |
| LegalMoves.CapturePriority | app/src/main/java/com/grandmaster/draughts/GameView.java:796-802 | Capturing is compulsory. When a piece can jump, the legal moves are exactly the maximal capture chains, and each captures. Otherwise they are exactly the simple moves |
| LegalMoves.NoLegalMoves | app/src/main/java/com/grandmaster/draughts/GameView.java:796-802 | The player has no legal move exactly when no piece of the player can jump or slide |
| LegalMoves.GetAllPossibleMovesForPlayer | app/src/main/java/com/grandmaster/draughts/GameView.java:796-802 | The method returns the captures when there are any, else the simple moves |
| LegalMoves.GameStatusSpec | app/src/main/java/com/grandmaster/draughts/GameView.java:788-794 | Status 2 exactly when white cannot move. Status 1 exactly when white can and black cannot. Status 0 when both can |
| LegalMoves.NoPiecesLost | app/src/main/java/com/grandmaster/draughts/GameView.java:788-794 | A side with no pieces left has lost |
| LegalMoves.CheckGameStatus | app/src/main/java/com/grandmaster/draughts/GameView.java:788-794 | The method returns the game status |
| Notation.SquareNumberRange | app/src/main/java/com/grandmaster/draughts/GameView.java:461 | Every square has a number from 1 to 32 |
| Notation.SquareNumberDistinct | app/src/main/java/com/grandmaster/draughts/GameView.java:461 | Distinct dark squares have distinct numbers |
| Notation.MoveNotation | app/src/main/java/com/grandmaster/draughts/GameView.java:454-462 | The notation is empty exactly for the empty move |
| Notation.NotationShape | app/src/main/java/com/grandmaster/draughts/GameView.java:454-462 | The notation is two numbers from 1 to 32 around one separator, and that separator is 'x' exactly when the move captures |
| Evaluation.MaterialIsValueSum | app/src/main/java/com/grandmaster/draughts/GameView.java:764-785 | The counters and bonuses amount to the sum of each square's own worth |
| Evaluation.ValueBound | app/src/main/java/com/grandmaster/draughts/GameView.java:764-785 | Each square is worth at most 800 points either way |
| Evaluation.EvaluateUndecided | app/src/main/java/com/grandmaster/draughts/GameView.java:759-786 | An undecided position scores its mobility plus the squares' worths, and the board part stays strictly between the win scores |
| Evaluation.TerminalScores | app/src/main/java/com/grandmaster/draughts/GameView.java:757-758 | With its own status, a position where white cannot move scores 100000, and one where only black cannot move scores -100000 |
| Evaluation.EdgeBonusOneSided | app/src/main/java/com/grandmaster/draughts/GameView.java:776-777 | The edge bonus is black's alone: mirrored men do not cancel on an edge column, mirrored kings do |
| Evaluation.ScoreSquare | app/src/main/java/com/grandmaster/draughts/GameView.java:766-781 | One square of the scan updates the counters and the score as the tally specifies |
| Evaluation.EvaluateBoard | app/src/main/java/com/grandmaster/draughts/GameView.java:756-786 | The method returns the evaluation |
| Evaluation.GetBoardHash | app/src/main/java/com/grandmaster/draughts/GameView.java:964-975 | The loop returns the exclusive or of the keys of the occupied squares |
| Evaluation.BoardHashBound | app/src/main/java/com/grandmaster/draughts/GameView.java:964-975 | With keys below 2^63, the hash is a non-negative long |
| Evaluation.EmptyBoardHash | app/src/main/java/com/grandmaster/draughts/GameView.java:965-974 | The empty board hashes to 0, whatever the table |
| Evaluation.HashAfterSet | app/src/main/java/com/grandmaster/draughts/GameView.java:964-975 | Changing one square changes the hash by exactly the old and new pieces' keys on that square |
| BitXor.XorAssoc | app/src/main/java/com/grandmaster/draughts/GameView.java:970 | Exclusive or is associative |
| BitXor.XorComm | app/src/main/java/com/grandmaster/draughts/GameView.java:970 | Exclusive or is commutative |
| BitXor.XorSelf | app/src/main/java/com/grandmaster/draughts/GameView.java:970 | A key exclusive-ored with itself cancels |
| BitXor.XorBound | app/src/main/java/com/grandmaster/draughts/GameView.java:970 | Exclusive or of numbers below 2^k stays below 2^k |
| Transposition.StoreFlag | app/src/main/java/com/grandmaster/draughts/GameView.java:719-721 | Upper bound exactly when the score is at most the original alpha. Lower bound exactly when it is above alpha and at least beta. Exact exactly when it is strictly between |
| Transposition.ProbeEntry | app/src/main/java/com/grandmaster/draughts/GameView.java:680-685 | A usable entry (searched at least as deep) ends the search with its stored score exactly when it is exact, or the window, narrowed by a bound, has closed |
| Transposition.ProbeNarrows | app/src/main/java/com/grandmaster/draughts/GameView.java:680-685 | A probe only narrows the window. It keeps the window open when the search goes on, and changes nothing without a deep-enough entry |
| Transposition.StoreSound | app/src/main/java/com/grandmaster/draughts/GameView.java:719-721 | The stored flag makes a fail-soft result a true bound on the position's value |
| Transposition.ProbeSound | app/src/main/java/com/grandmaster/draughts/GameView.java:680-685 | Probing a sound entry loses nothing: a cutoff score and a narrowed window agree with the value within the original window |
| Transposition.ReprobeCuts | app/src/main/java/com/grandmaster/draughts/GameView.java:680-685 | Probing again with the same window at the stored depth or shallower returns the stored score at once |
| OpeningBook.SquareOfNumber | app/src/main/java/com/grandmaster/draughts/app/src/main/java/com/grandmaster/draughts/GameLogger.java:174-177 | Reading back a dark square's number gives the square |
| OpeningBook.NumberOfSquare | app/src/main/java/com/grandmaster/draughts/app/src/main/java/com/grandmaster/draughts/GameLogger.java:174-177 | Every number from 1 to 32 reads as a dark square with that number, so the numbering is a bijection |
| OpeningBook.NotationRoundTrip | app/src/main/java/com/grandmaster/draughts/app/src/main/java/com/grandmaster/draughts/GameLogger.java:167-186 | Parsing the notation of a move between dark squares gives its first and last squares |
| OpeningBook.ParseNeedsDigits | app/src/main/java/com/grandmaster/draughts/app/src/main/java/com/grandmaster/draughts/GameLogger.java:170-173 | Text without a digit is never read as a move |
| OpeningBook.ParseEmpty | app/src/main/java/com/grandmaster/draughts/app/src/main/java/com/grandmaster/draughts/GameLogger.java:168 | The empty notation gives null |
| OpeningBook.ParseBareNumberThrows | app/src/main/java/com/grandmaster/draughts/app/src/main/java/com/grandmaster/draughts/GameLogger.java:171-173 | A bare number makes the parser throw ArrayIndexOutOfBoundsException, which is not caught |
| OpeningBook.ParseFifteenThrows | app/src/main/java/com/grandmaster/draughts/app/src/main/java/com/grandmaster/draughts/GameLogger.java:171-173 | "15" is such an input |
| OpeningBook.ParseMoveNotation | app/src/main/java/com/grandmaster/draughts/app/src/main/java/com/grandmaster/draughts/GameLogger.java:167-186 | Empty text gives null; a parsed move is the two squares of two Java ints |
| OpeningBook.SquareOfOutside | app/src/main/java/com/grandmaster/draughts/app/src/main/java/com/grandmaster/draughts/GameLogger.java:174-177 | Only numbers 1 to 32 name squares on the board; the truncating arithmetic reads 0, -1 and -2 just left of the top row |
| OpeningBook.ParseMoveNotationChecked | app/src/main/java/com/grandmaster/draughts/app/src/main/java/com/grandmaster/draughts/GameLogger.java:167-186 | The corrected parser returns a two-square move or null |
| OpeningBook.ParseCheckedAgrees | app/src/main/java/com/grandmaster/draughts/app/src/main/java/com/grandmaster/draughts/GameLogger.java:167-186 | The corrected parser differs from the one as written only on the inputs that throw there, and returns null on those |
| OpeningBook.ParseCheckedRoundTrip | app/src/main/java/com/grandmaster/draughts/app/src/main/java/com/grandmaster/draughts/GameLogger.java:167-186 | The corrected parser still reads back every notation |
| OpeningBook.ScoreOrZeroLookup | app/src/main/java/com/grandmaster/draughts/app/src/main/java/com/grandmaster/draughts/GameLogger.java:96 | getOrDefault gives the stored score, or 0 |
| OpeningBook.CreditLookup | app/src/main/java/com/grandmaster/draughts/app/src/main/java/com/grandmaster/draughts/GameLogger.java:93-97 | Crediting one move sets its score to the old score plus the outcome, wrapped, and changes nothing else |
| OpeningBook.LearnEmpty | app/src/main/java/com/grandmaster/draughts/app/src/main/java/com/grandmaster/draughts/GameLogger.java:80-82 | A game without moves leaves the book unchanged |
| OpeningBook.CreditKeys | app/src/main/java/com/grandmaster/draughts/app/src/main/java/com/grandmaster/draughts/GameLogger.java:93 | Crediting adds the histories used to the book and removes none |
| OpeningBook.LearnKeys | app/src/main/java/com/grandmaster/draughts/app/src/main/java/com/grandmaster/draughts/GameLogger.java:87-98 | Learning adds exactly the game's histories to the book's keys |
| OpeningBook.LearnUnplayed | app/src/main/java/com/grandmaster/draughts/app/src/main/java/com/grandmaster/draughts/GameLogger.java:87-98 | A move not credited from a history keeps its score there, or its absence |
| OpeningBook.CreditElsewhere | app/src/main/java/com/grandmaster/draughts/app/src/main/java/com/grandmaster/draughts/GameLogger.java:93-97 | Crediting another move keeps what the book says of this one |
| OpeningBook.LearnPlayed | app/src/main/java/com/grandmaster/draughts/app/src/main/java/com/grandmaster/draughts/GameLogger.java:87-98 | With distinct histories, each move played gets its old score (0 if new) plus the outcome |
| OpeningBook.CreditAgain | app/src/main/java/com/grandmaster/draughts/app/src/main/java/com/grandmaster/draughts/GameLogger.java:96-97 | Crediting a move adds the outcome to the score it had |
| OpeningBook.HistoryCommas | app/src/main/java/com/grandmaster/draughts/app/src/main/java/com/grandmaster/draughts/GameLogger.java:89 | The history after i >= 1 moves holds i - 1 commas and is not empty |
| OpeningBook.NotationsHaveDistinctHistories | app/src/main/java/com/grandmaster/draughts/app/src/main/java/com/grandmaster/draughts/GameLogger.java:89 | The histories of a game in notation are pairwise distinct |
| OpeningBook.LearnedScores | app/src/main/java/com/grandmaster/draughts/app/src/main/java/com/grandmaster/draughts/GameLogger.java:79-102 | Learning a game in notation adds the outcome to each move it played, from its history. Every other move keeps its score, or its absence |
| OpeningBook.CreditMove | app/src/main/java/com/grandmaster/draughts/app/src/main/java/com/grandmaster/draughts/GameLogger.java:88-97 | One pass of the loop credits the move played after the i-th history |
| OpeningBook.LearnKeepsInt32 | app/src/main/java/com/grandmaster/draughts/app/src/main/java/com/grandmaster/draughts/GameLogger.java:97 | Every score remains a Java int |
| OpeningBook.LearnedGameReplays | app/src/main/java/com/grandmaster/draughts/app/src/main/java/com/grandmaster/draughts/GameLogger.java:135-162 | A book learnt from one won game, starting empty, answers each position of that game with the move the game played there |
| OpeningBook.VisitStep | app/src/main/java/com/grandmaster/draughts/app/src/main/java/com/grandmaster/draughts/GameLogger.java:110 | Visiting one more history keeps the HashMap iteration's state |
| OpeningBook.VisitDone | app/src/main/java/com/grandmaster/draughts/app/src/main/java/com/grandmaster/draughts/GameLogger.java:110 | A finished iteration lists every history exactly once |
| OpeningBook.SavedLinesAppend | app/src/main/java/com/grandmaster/draughts/app/src/main/java/com/grandmaster/draughts/GameLogger.java:110-123 | One more line written keeps the lines in step with the histories visited |
| OpeningBook.LineWithoutColonSkipped | app/src/main/java/com/grandmaster/draughts/app/src/main/java/com/grandmaster/draughts/GameLogger.java:53-54 | A line without ':' changes nothing |
| OpeningBook.MalformedEntrySkipped | app/src/main/java/com/grandmaster/draughts/app/src/main/java/com/grandmaster/draughts/GameLogger.java:59-62 | An entry without exactly two fields is skipped |
| OpeningBook.ReadLineFailure | app/src/main/java/com/grandmaster/draughts/app/src/main/java/com/grandmaster/draughts/GameLogger.java:61 | Whether a line stops the load does not depend on the book |
| OpeningBook.BadScoreEndsLoad | app/src/main/java/com/grandmaster/draughts/app/src/main/java/com/grandmaster/draughts/GameLogger.java:61-69 | A score that is not an int ends the load: that line and every later line are ignored, and the earlier lines are kept |
| OpeningBook.LoadOnto | app/src/main/java/com/grandmaster/draughts/app/src/main/java/com/grandmaster/draughts/GameLogger.java:51-65 | Lines that all read add to any book what they add to an empty one, overriding the histories they name |
| OpeningBook.LoadThenLine | app/src/main/java/com/grandmaster/draughts/app/src/main/java/com/grandmaster/draughts/GameLogger.java:51-65 | Loading lines that read and then one more reads that one into the book loaded so far |
| OpeningBook.LaterLineReplaces | app/src/main/java/com/grandmaster/draughts/app/src/main/java/com/grandmaster/draughts/GameLogger.java:51-64 | Of two lines for the same history with any readable lines between, the later one replaces the earlier: the load is the same without the earlier line |
| OpeningBook.LoadKeepsInt32 | app/src/main/java/com/grandmaster/draughts/app/src/main/java/com/grandmaster/draughts/GameLogger.java:61 | Loading keeps every score a Java int |
| OpeningBook.EntryRoundTrip | app/src/main/java/com/grandmaster/draughts/app/src/main/java/com/grandmaster/draughts/GameLogger.java:117 | An entry "move,score" splits and parses back to its move and score |
| OpeningBook.EntriesTextRoundTrip | app/src/main/java/com/grandmaster/draughts/app/src/main/java/com/grandmaster/draughts/GameLogger.java:115-119 | Reading a line's joined entries gives back that history's scores, whatever their order |
| OpeningBook.LineRoundTrip | app/src/main/java/com/grandmaster/draughts/app/src/main/java/com/grandmaster/draughts/GameLogger.java:111-121 | Reading the line written for a history restores its scores |
| OpeningBook.LinesRoundTrip | app/src/main/java/com/grandmaster/draughts/app/src/main/java/com/grandmaster/draughts/GameLogger.java:43-71 | Reading the lines written for some histories restores those histories |
| OpeningBook.SaveLoadRoundTrip | app/src/main/java/com/grandmaster/draughts/app/src/main/java/com/grandmaster/draughts/GameLogger.java:108-128 | Whatever order the HashMaps are visited in, loading what was saved gives the same book, when that book's format is writable |
| OpeningBook.LearnedWritable | app/src/main/java/com/grandmaster/draughts/app/src/main/java/com/grandmaster/draughts/GameLogger.java:87-98 | A game whose moves contain none of the separators leaves a writable book writable |
| OpeningBook.CreditKeepsWritable | app/src/main/java/com/grandmaster/draughts/app/src/main/java/com/grandmaster/draughts/GameLogger.java:93-97 | Crediting a clean move under a key without ':' keeps the book writable |
| OpeningBook.ScoreEntries | app/src/main/java/com/grandmaster/draughts/app/src/main/java/com/grandmaster/draughts/GameLogger.java:115-118 | The loop writes one entry per move of the history, in some iteration order that lists each move once |
| OpeningBook.ReadScores | app/src/main/java/com/grandmaster/draughts/app/src/main/java/com/grandmaster/draughts/GameLogger.java:56-63 | The entry loop reads a line's scores as the entries function specifies |
| OpeningBook.GameLogger.constructor | app/src/main/java/com/grandmaster/draughts/app/src/main/java/com/grandmaster/draughts/GameLogger.java:30-38 | The book starts empty and is loaded from the file's lines |
| OpeningBook.GameLogger.LoadOpeningBook | app/src/main/java/com/grandmaster/draughts/app/src/main/java/com/grandmaster/draughts/GameLogger.java:43-71 | The lines are read into the book in order until a score that is not an int, and every score stays a Java int |
| OpeningBook.GameLogger.LearnFromGame | app/src/main/java/com/grandmaster/draughts/app/src/main/java/com/grandmaster/draughts/GameLogger.java:79-102 | A game without moves changes nothing and writes nothing. Otherwise every move is credited and the whole book is saved |
| OpeningBook.GameLogger.CreditGame | app/src/main/java/com/grandmaster/draughts/app/src/main/java/com/grandmaster/draughts/GameLogger.java:87-98 | The loop credits every move of the game from its history |
| OpeningBook.GameLogger.SaveOpeningBook | app/src/main/java/com/grandmaster/draughts/app/src/main/java/com/grandmaster/draughts/GameLogger.java:108-128 | One line per history, each in the format the loader reads |
| OpeningBook.GameLogger.GetBookMove | app/src/main/java/com/grandmaster/draughts/app/src/main/java/com/grandmaster/draughts/GameLogger.java:135-162 | Null for an unknown history or when no move scores at least 1. Otherwise a move of the highest score |

## Left out

- The search: `minimax`, `quiescenceSearch`, iterative deepening, pondering,
  the executor threads and the time limits. Only the transposition table's
  flag rule and probe are modelled.
- The user interface: drawing, touch handling, selection, hints, buttons,
  sounds and the `Log` calls. These are I/O.
- File I/O: the book file is the sequence of its lines. The constructor and
  `loadOpeningBook` take those lines, and `saveOpeningBook` returns them. The
  file's absence, the storage directory and `IOException` are not modelled.
- `initZobrist`: the keys come from a random generator, so the table is a
  parameter of non-negative keys below 2^63.
- `copyBoard`: the generators work on board values, so a copy is the value
  itself.
- HashMap iteration order: saving and `getBookMove` take the order as the
  iteration produces it. The contracts hold for every order.
- `JavaText.ParseInt` accepts ASCII digits only. `Integer.parseInt` also
  accepts digits of other Unicode scripts.
- `Moves.ApplyMoveEffect`: for a king's capture that lands three or more
  squares past its start, `applyMove` empties the integer midpoint of the
  step, which need not be the square of the captured piece. The model states
  what the code does and does not claim that the captured piece is removed.
- `Moves.ApplyUndoInverse`: stated only for moves whose captured squares are
  distinct and apart from both ends, and whose final square was empty and
  apart from the start; `Moves.UndoLosesPieceOnClosedChain` shows a case
  where the inverse fails.
- `Captures.FindCapturePathsRecursive`: the king's captured square is the
  enemy's own square. The code as written is `CapturesAsWritten.Search`,
  bounded by a recursion depth because from some positions (one is shown
  by `CapturesAsWritten.KingSearchDiverges`) it recurses forever.

## Findings

| source | as written | input that shows it | evidently intended | confidence | as-written member | corrected member |
|---|---|---|---|---|---|---|
| app/src/main/java/com/grandmaster/draughts/GameView.java:922 | A king's jump records its captured square as (opponentR, (r + tempR) / 2): the column is half the sum of two rows. The enemy then stays on the copied board and is never marked visited, so from the position in the next column the king jumps back and forth over the man and the recursion does not return (a StackOverflowError in Java) | A white king on (2,1) and a black man on (1,2) and no other piece: the jump to (0,3) records (1,1), and the search from (0,3) jumps back to (2,1) | The enemy's own square (opponentR, opponentC) is recorded, so the enemy is removed and the search ends with the one chain (2,1) to (0,3) | high, not executed | CapturesAsWritten.KingSearchDiverges | CapturesAsWritten.KingSearchFixed |
| app/src/main/java/com/grandmaster/draughts/app/src/main/java/com/grandmaster/draughts/GameLogger.java:171-173 | parts[1] is read without checking that the split produced two fields, and only NumberFormatException is caught, so a notation without a separator throws ArrayIndexOutOfBoundsException | "15" | null for any text that does not hold two numbers around the separator | high, not executed | OpeningBook.ParseFifteenThrows | OpeningBook.ParseCheckedAgrees |
