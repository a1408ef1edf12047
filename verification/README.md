# A verified model of a bitboard chess engine's core

The engine keeps a position as twelve 64-bit bitboards, one per piece kind and
colour, with two side occupancies, the union of both, an en-passant square,
four castling rights, the side to move, and a stack of 512 undo records
indexed by the ply. On top of that board it:

- makes and unmakes moves;
- answers whether a side is in check;
- generates the legal moves: pseudo-legal moves, copy-and-make filtered;
- counts leaf nodes with `perft`;
- scores positions by material plus piece-square tables;
- searches with fail-soft alpha-beta negamax, captures ordered first by
  MVV-LVA;
- reads and writes moves in the long algebraic text of the UCI protocol.

This project restates that core in Dafny and proves what each part promises.
Modules follow the engine's files:

| module | file | what it holds |
|---|---|---|
| `Types` | `types.dfy` | piece and colour numbering, move flags, moves and undo records |
| `Bits` | `bits.dfy` | bitboards as `bv64`; the meaning of a bitboard as a set of squares; `popcount`, `lsb`, `poplsb`; the file and rank masks |
| `Positions` | `position.dfy` | the position as a value; `piece_at` and `set_occ` on values; `makeMove` and `unmakeMove` as functions (`Make`, `Undo`, `UndoAsWritten`) with their square-by-square meaning |
| `Boards` | `board.dfy` | the `Board` class with the C++ members as fields; `clear`, `loadFEN`, `set_occ`, `piece_at`, `inCheck`, `makeMove`, `unmakeMove` as methods proved against `Positions` |
| `Attacks` | `attacks.dfy` | the knight and king tables, `attackedBy` as a predicate and as the source's loops |
| `Generation` | `generation.dfy` | the move lists `generateMoves` builds, section by section, the legality filter and `perft` as specification functions, and what every emitted move satisfies |
| `MoveGen` | `movegen.dfy` | `pushMovesFromMask`, `slideInDirection`, `generateMoves` and `perft` as methods over a `Board`, proved equal to the `Generation` functions |
| `Evaluation` | `eval.dfy` | `mirror64`, the six tables, `pstSum` and `eval`, and their symmetries and bounds |
| `Ordering` | `ordering.dfy` | `pieceValueForMVV`, `isCapture`, `mvvLva`, and the stable descending sort the search applies |
| `Minimax` | `minimax.dfy` | the negamax value, the alpha-beta recursion, the root choice and the principal-variation walk as ghost functions, and the search theorems |
| `Search` | `search.dfy` | `negamax`, `chooseBestMove` and `search_root` as methods over a `Board`, proved equal to the `Minimax` functions |
| `Uci` | `uci.dfy` | `move_to_uci`, `same_move`, `parse_uci_move` and `legal_in_pos` |

The board-changing code of the engine is imperative Dafny. Each method
states the new state of the board as a function of the old one. For
example, `Board.MakeMove` ends with `Pos() == Make(old(Pos()), m)`,
`ply == old(ply) + 1` and the saved record in `hist[old(ply)]`. What the
engine promises is proved about those functions as lemmas.

The recursive search methods also state the part of the board they leave
alone. After a search:

- the position is the one it started from;
- `ply` is back to its starting value;
- every history entry below `ply` is unchanged.

## Model

| member | source | states |
|---|---|---|
| Bits.Popcount | src/bitboard.h:5 | the population count is zero exactly for the empty bitboard |
| Bits.PopcountIs | src/bitboard.h:5 | the population count is the number of squares the bitboard holds |
| Bits.Lsb | src/bitboard.h:6 | for a non-empty bitboard, the index of a square it holds that is no higher than any square it holds (the count of trailing zeros) |
| Bits.PopLsb | src/bitboard.h:7 | `poplsb` returns the single-bit mask of the lowest square, and `b & (b - 1)` holds exactly the other squares of `b`; the ascending square list of `b` is that square followed by the list of the rest |
| Bits.Drain | src/bitboard.h:7 | repeated `poplsb` until the bitboard is empty visits the squares in the order of the ascending square list |
| Bits.DrainOrder | src/bitboard.h:5-7 | the ascending square list of a bitboard holds each of its squares exactly once, strictly increasing, and has `popcount` entries |
| Bits.FileMasks | src/bitboard.h:9-10 | `FILE_A` holds exactly the eight squares of file a and `FILE_H` those of file h |
| Bits.RankMasks | src/bitboard.h:11-12 | `RANK_2` holds exactly squares 8..15 and `RANK_7` exactly squares 48..55 |
| Positions.OccupancyIs | src/board.cpp:50-54 | the occupancy `set_occ` leaves is the union of the six bitboards of each side, and `occAll` is the union of both sides |
| Positions.OccupancyUnique | src/board.cpp:50-54 | the piece bitboards determine the occupancy: two occupancies of the same pieces are equal |
| Positions.PieceAtFirst | src/board.cpp:56-62 | `piece_at` returns the first piece index whose bitboard holds the square, and `NO_PIECE` only when none of the twelve holds it |
| Positions.MakeHas | src/board.cpp:76-143 | after `makeMove`, a bitboard holds a square exactly when the piece the move leaves there is that bitboard's piece: the mover or promotion piece on the target; nothing on the origin, on an en-passant victim's square or on a castling rook's corner; the rook on its castling square; every other square as before |
| Positions.MakePieceAt | src/board.cpp:76-143 | `piece_at` after the move is the piece the move leaves on each square |
| Positions.MakeValid | src/board.cpp:69-148 | a playable move keeps the bitboards pairwise disjoint and the en-passant square on the board or -1 |
| Positions.MakeEp | src/board.cpp:97-142 | the en-passant square after a move is set exactly by a white or black pawn's two-rank push without promotion or castling, and it is the square between origin and target; every other move clears it |
| Positions.MakeSound | src/board.cpp:69-148 | a playable move that jumps only over an empty square leaves a position whose en-passant square is empty with the moved pawn behind it |
| Positions.RightsAfterBits | src/board.cpp:100-106 | each castling right survives a move exactly when it was held and neither its king moved, nor its rook moved from its corner, nor a rook was captured on that corner |
| Positions.RightsNeverGained | src/board.cpp:100-106 | a move never adds a castling right, and the four unused high bits of the rights byte are kept |
| Positions.RoundTrip | src/board.cpp:150-213 | undoing a playable move with the record `makeMove` saved, and with the mover's pawn restored on a promotion, gives back the position before the move |
| Positions.RoundTripAsWritten | src/board.cpp:150-213 | `unmakeMove` as written gives back the position before every playable move without a promotion |
| Positions.PromotionUndoAsWrittenDiffers | src/board.cpp:161-164 | `unmakeMove` as written undoes a promotion by putting a pawn of the side that did not move on the origin, so the position before the move is not restored |
| Positions.StartSound | src/board.cpp:23-48 | the standard start position is well formed, the kings stand on e1 and e8, and its occupancy is the first two and last two ranks |
| Boards.Board.constructor | src/board.h:44-51 | a new board is empty, with no en-passant square, no castling rights, White to move, a history of 512 empty records and ply 0 |
| Boards.Board.Copy | src/movegen.cpp:432 | `Board test = b` copies every member, the history included |
| Boards.Board.Clear | src/board.cpp:14-21 | `clear` empties the board, resets the en-passant square, castling rights, side to move and ply, and keeps the history |
| Boards.Board.LoadFEN | src/board.cpp:23-48 | `loadFEN` succeeds exactly for the text `startpos` and then sets the standard start position with all four castling rights and its occupancy; any other text leaves the cleared board |
| Boards.Board.SetOcc | src/board.cpp:50-54 | after `set_occ`, each side's occupancy holds exactly that side's pieces and `occAll` holds all of them |
| Boards.Board.PieceAt | src/board.cpp:56-62 | the board's `piece_at` loop returns the value-level `piece_at` of its bitboards |
| Boards.Board.InCheck | src/board.cpp:215-308 | `inCheck` is false for a side without a king; otherwise it is true exactly when the other side attacks the king's lowest square, by `attackedBy`'s rules |
| Boards.Board.MakeMove | src/board.cpp:69-148 | `makeMove` stores the move, the captured piece, the previous en-passant square and the previous rights in `hist[ply]`, leaves every other history entry unchanged, advances `ply`, recomputes the occupancy, and leaves the position `Make` describes |
| Boards.Board.UnmakeMove | src/board.cpp:150-213 | `unmakeMove` steps `ply` back, keeps the history, recomputes the occupancy and leaves the position `UndoAsWritten` describes, with the saved en-passant square and rights |
| Attacks.InitKnight | src/movegen.cpp:15-29 | the knight table holds, for every square, the knight mask of that square |
| Attacks.KnightMaskSquares | src/movegen.cpp:15-29 | a knight mask holds exactly the on-board squares one knight jump away, and never its own square |
| Attacks.KnightMaskSymmetric | src/movegen.cpp:15-29 | square t is in the knight mask of s exactly when s is in the knight mask of t |
| Attacks.InitKing | src/movegen.cpp:31-46 | the king table holds, for every square, the king mask of that square |
| Attacks.KingMaskSquares | src/movegen.cpp:31-46 | a king mask holds exactly the on-board squares one king step away, and never its own square |
| Attacks.KingMaskSymmetric | src/movegen.cpp:31-46 | square t is in the king mask of s exactly when s is in the king mask of t |
| Attacks.AttackedByMethod | src/movegen.cpp:52-113 | `attackedBy` is true exactly when a pawn of the side captures onto the square, one of its knights or its king is a move away, or the first occupied square along a diagonal holds its bishop or queen, or along a rank or file its rook or queen |
| Attacks.BlockerReached | src/movegen.cpp:77-112 | the square where a ray walk stops is occupied and is reached along that ray with every square before it empty |
| Generation.TargetsHas | src/movegen.cpp:116-123 | `pushMovesFromMask` appends exactly one move from the origin to each square of the mask, with no promotion and no flags |
| MoveGen.PushMovesFromMask | src/movegen.cpp:116-123 | the method appends the mask's moves, in ascending target order, after the moves already in the list |
| Generation.RayHas | src/movegen.cpp:126-144 | a ray walk emits exactly the moves to the squares reached with every earlier square empty, stopping on the first occupied square and including it only when it holds an enemy piece |
| MoveGen.SlideInDirection | src/movegen.cpp:126-144 | the method appends the ray's moves, nearest first, after the moves already in the list |
| Generation.PawnMovesEmitted | src/movegen.cpp:153-188 | each pawn push, double push and capture is a move of a friendly pawn to an empty or enemy square, with the skipped square empty on a double push |
| Generation.EpMovesHas | src/movegen.cpp:189-201 | an en-passant move exists exactly when there is an en-passant square and a friendly pawn that attacks it, and it carries the en-passant and capture flags |
| Generation.StepMovesHas | src/movegen.cpp:203-269 | a knight or king emits exactly the moves to squares of its mask that are empty or hold an enemy piece |
| Generation.PieceMovesEmitted | src/movegen.cpp:203-269 | every knight, bishop, rook, queen and king move starts on a square of that piece and goes to an empty or enemy square |
| Generation.CastleMovesHas | src/movegen.cpp:270-285 | castling is emitted exactly with the king on e1 or e8 and the right held, both squares next to the king towards the rook empty, the rook on its corner, and the king's square and both squares unattacked |
| MoveGen.GeneratePseudo | src/movegen.cpp:147-425 | the move sections produce the pseudo-legal list in the source's order: pawns, en passant, knights, bishops, rooks, queens, king, castling |
| Generation.PseudoFine | src/movegen.cpp:147-425 | every pseudo-legal move can be made and undone, a double push jumps over an empty square, and no move carries a promotion or a flag other than en passant with capture, or castling |
| MoveGen.IsLegal | src/movegen.cpp:431-434 | playing a move on a copy and asking `inCheck` for the mover answers whether the move leaves the mover out of check |
| MoveGen.LegalFilter | src/movegen.cpp:426-437 | the filter keeps the legal moves of the list in their order |
| Generation.FilterHas | src/movegen.cpp:426-437 | a move is kept exactly when it is in the list and leaves its side out of check |
| MoveGen.GenerateMoves | src/movegen.cpp:147-437 | `generateMoves` returns the filtered pseudo-legal list of the board's position |
| Generation.GeneratedIs | src/movegen.cpp:147-437 | the generated list is the legality filter applied to the pseudo-legal list |
| Generation.GeneratedFine | src/movegen.cpp:147-437 | every generated move can be made, leaves its side out of check, leaves a well-formed position, and is not a promotion |
| Generation.PerftZero | src/movegen.cpp:441 | `perft` at depth 0 counts one node |
| Generation.PerftOne | src/movegen.cpp:440-451 | `perft` at depth 1 counts the generated moves |
| Generation.SumPerftNext | src/movegen.cpp:445-449 | each loop step adds the count below one generated move |
| MoveGen.Perft | src/movegen.cpp:440-451 | the method returns the `perft` count of the position, and the board's position, ply and history below the ply are as before |
| Evaluation.MirrorFileRank | src/eval.cpp:12-14 | `mirror64` keeps the file and turns rank r into rank 7 - r |
| Evaluation.MirrorInvolution | src/eval.cpp:12-14 | mirroring twice gives the square back |
| Evaluation.TablesBounded | src/eval.cpp:16-84 | every entry of the six piece-square tables lies within ±10 |
| Evaluation.PstSum | src/eval.cpp:87-97 | the `pstSum` loop returns the sum of the table entries over the bitboard's squares, mirrored for Black |
| Evaluation.PstTotalIsBoardSum | src/eval.cpp:87-97 | the drain-order sum equals the sum over squares 0..63 held by the bitboard |
| Evaluation.MirrorSums | src/eval.cpp:87-97 | a Black bitboard that mirrors a White one sums to the same table total |
| Evaluation.Eval | src/eval.cpp:111-148 | `eval` returns material plus table totals of White minus those of Black, from the side to move's point of view |
| Evaluation.MaterialAddsValue | src/eval.cpp:104-125 | adding one piece to an empty square changes material by its value, positive for White and negative for Black |
| Evaluation.SideToMoveNegates | src/eval.cpp:148 | the score for one side to move is the negation of the score for the other |
| Evaluation.ColourSymmetry | src/eval.cpp:111-148 | swapping the colours and mirroring every piece negates White's score, so the mirrored position with the other side to move scores the same |
| Evaluation.StartEvaluatesZero | src/eval.cpp:111-148 | the start position scores 0 for either side to move |
| Evaluation.EvalBounded | src/eval.cpp:111-148 | every score lies strictly between -1000000 and 1000000 |
| Ordering.MvvValue | src/search.cpp:15-24 | the victim value lies in 0..900 and is non-zero exactly for pieces other than kings |
| Ordering.MvvValueColourBlind | src/search.cpp:15-24 | both colours' pieces of a kind have the same victim value: 100, 320, 330, 500, 900 and 0 |
| Minimax.MvvIsMaterialValue | src/search.cpp:15-24 | the victim value of a piece is its material value in the evaluation |
| Ordering.IsCaptureIff | src/search.cpp:27-32 | a move is a capture exactly when an enemy piece stands on its target or it is an en-passant capture |
| Ordering.MvvLva | src/search.cpp:35-41 | the ordering key lies between -900 and 9000 |
| Ordering.CapturesFirst | src/search.cpp:35-41 | a capture of a non-king piece, or en passant, has a positive key and a quiet move key 0; en passant is keyed with a pawn as its victim |
| Ordering.SortPerm | src/search.cpp:64-66 | the sort returns a permutation of the moves |
| Ordering.SortDescending | src/search.cpp:64-66 | the sorted moves have non-increasing keys |
| Ordering.SortStable | src/search.cpp:64-66 | moves with equal keys keep their generated order |
| Minimax.FailSoft | src/search.cpp:45-79 | alpha-beta returns the exact negamax value inside the window, an upper bound of it at or below alpha, and a lower bound at or above beta |
| Minimax.FullWindowExact | src/search.cpp:45-79 | with the full window, alpha-beta equals plain negamax |
| Minimax.ValueBounded | src/search.cpp:45-79 | negamax values lie strictly between -1000000 and 1000000, so the -10000000 start of the best score is always beaten |
| Search.Negamax | src/search.cpp:45-79 | the method returns the score and node count of the alpha-beta recursion over the position: the evaluation at depth 0, -100000 + ply when mated and 0 when stalemated, otherwise the fail-soft best of the ordered children with the beta cut-off; it leaves position, ply and the history below the ply as before |
| Minimax.RootNoMoves | src/search.cpp:83-109 | without legal moves the root choice is the empty move, with score -10000000 and no nodes |
| Minimax.RootMove | src/search.cpp:83-109 | the root choice is the empty move or a generated move |
| Minimax.RootBest | src/search.cpp:97-107 | with legal moves the root chooses the first move in search order whose score equals the negamax value of the position, and every earlier move scores less |
| Search.ChooseBestMove | src/search.cpp:83-109 | the method returns the root choice and adds its node count, and leaves the board as before |
| Minimax.GeneratedNotNull | src/search.cpp:147 | no generated move has origin and target both 0, so the empty-move test tells "no move" apart |
| Minimax.WalkLegal | src/search.cpp:146-161 | the principal-variation walk is a line of at most depth moves, each legal in the position the previous one leaves |
| Search.WalkLine | src/search.cpp:149-161 | the walk loop returns the moves and nodes of the principal-variation walk |
| Minimax.RootSearchSound | src/search.cpp:112-163 | the root search's line is legal and no longer than the depth; it is empty exactly without legal moves; otherwise it starts with the best move, a generated move whose score is the negamax value, and without legal moves the result is the empty move, -10000000 and 0 nodes |
| Search.SearchRoot | src/search.cpp:112-163 | `search_root` returns the root search result and leaves the board as before |
| Uci.UciText | src/uci.cpp:19-33 | a move's text has four characters, or five with a promotion letter from q, r, b, n, where q is used exactly for a promotion piece that is not a rook, bishop or knight |
| Uci.MoveToUci | src/uci.cpp:19-33 | the character pushes build the move's text |
| Uci.SameMove | src/uci.cpp:44-46 | two moves are the same exactly when they agree on everything but their flags |
| Uci.ParseUciMove | src/uci.cpp:49-69 | parsing succeeds exactly on texts of at least four characters that start with two coordinates and whose fifth character, if any, is a promotion letter q, r, b or n in either case (later characters are ignored); the move has on-board squares, no flags, and a promotion piece of the side to move exactly when a fifth character is present |
| Uci.PrintThenParse | src/uci.cpp:19-69 | parsing a move's text gives back the move without its flags |
| Uci.ParseThenPrint | src/uci.cpp:19-69 | printing a parsed move gives back the first four characters and the lower-case promotion letter |
| Uci.LegalInPos | src/uci.cpp:72-77 | `legal_in_pos` is true exactly when a generated move is the same move |
| Uci.GeneratedText | src/uci.cpp:72-77 | every generated move prints as four characters, and its text parses back to a move `legal_in_pos` accepts |

## Left out

- `main` and the command loop (src/uci.cpp:80-201), `print_usage`, `toFEN`, `perftDivide` and `sqToStr`: printing and reading a terminal are not modelled.
- The header comment of `generateMoves` in src/movegen.h says that it emits pseudo-legal moves. The code filters them to legal moves, and the model follows the code.
- `__builtin_popcountll` and `__builtin_ctzll` are specified by what they return (the number of squares; the lowest square), not by their machine code.
- The lazy `initDone` guard of the attack tables is not modelled. `InitKnight` and `InitKing` fill arrays that the rest of the model replaces by the functions `KnightMask` and `KingMask`, which the arrays are proved equal to.
- The concrete perft totals of the start position are not stated. Only the recursion of `perft` is modelled.
- The node counters are unbounded. The wrap-around of `unsigned long long` is not modelled.
- `hist` is a sequence of 512 records. Its memory layout and the behaviour past 512 plies are left out. `Board.MakeMove` requires `ply < 512`.
- Boards.Board.UnmakeMove: models the code as written, so the position it restores after a promotion is not the position before the move (see Findings). Every caller passes a generated move, and no generated move is a promotion.
- Generation needs a king of the side to move, because `lsb` of an empty bitboard is undefined. `GenerateMoves`, `Perft` and the search require every position reached within their depth to satisfy this; the requirement is `Searchable`.
- Search.Negamax: search depth is a natural number. `negamax` with a negative depth does not reach its `depth == 0` case, and `search_root` with depth 0 makes that call, so `ChooseBestMove` and `SearchRoot` require a depth of at least 1.
- `std::stable_sort` is modelled by an insertion sort on the keys, proved to be a permutation that is descending and stable. The comparator calls are not counted.
- Uci.MoveToUci: a character is the low byte of its code, as `char(x)` gives for the on-board squares the callers pass.
- Uci.ParseUciMove: `std::tolower` is the C-locale lowering of `A`..`Z`.
- src/move.h is not part of this model. A move is its origin, target, promotion piece and flags, read off the uses of those fields.

## Findings

| source | as written | input that shows it | evidently intended | confidence | as-written member | corrected member |
|---|---|---|---|---|---|---|
| src/board.cpp:163 | after `stm` is flipped back to the mover (line 154), the promotion rollback puts `(stm == WHITE) ? BP : WP` on the origin, the pawn of the side that did not move | White pawn e7, move e7e8 promoting to a queen: `unmakeMove` puts a black pawn on e7 | restore the mover's own pawn: `(stm == WHITE) ? WP : BP` | not executed | Positions.PromotionUndoAsWrittenDiffers | Positions.RoundTrip |
