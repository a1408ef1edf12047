/**
 * The static evaluation (src/eval.cpp): material plus piece-square tables,
 * summed in White's frame and returned from the side to move's point of
 * view.  `pstSum` drains a bitboard with `poplsb`; its result is related to
 * an order-free sum over the board (`BoardSum`), which is what the colour
 * symmetry of the evaluation is proved on.
 */
module Evaluation {
  import opened Bits
  import opened Types
  import opened Positions
  import opened Boards

  // ---------------------------------------------------------------------
  // mirror64

  /** `sq ^ 56` on the six bits of a square, as an integer. */
  lemma MirrorBits(s: bv6)
    ensures (s ^ 56) as int == (7 - (s as int) / 8) * 8 + (s as int) % 8
  {
  }

  /** `mirror64(sq)`: `sq ^ 56`. */
  function Mirror(sq: int): (r: int)
    requires IsSquare(sq)
    ensures IsSquare(r)
  {
    MirrorAfter(sq, 1)
  }

  /** `Mirror` behind `n` trivial steps, so that its bit-level body is
      unfolded only where a proof asks for it (`MirrorIs`). */
  function MirrorAfter(sq: int, n: nat): (r: int)
    requires IsSquare(sq)
    ensures IsSquare(r)
  {
    if n == 0 then
      IndexValue(sq);
      MirrorBits(Index(sq));
      (Index(sq) ^ 56) as int
    else MirrorAfter(sq, n - 1)
  }

  lemma MirrorIs(sq: int)
    requires IsSquare(sq)
    ensures Mirror(sq) == (Index(sq) ^ 56) as int
  {
    assert MirrorAfter(sq, 1) == MirrorAfter(sq, 0);
  }

  /** The mirror image of a square is on the same file and the opposite
      rank. */
  lemma MirrorFileRank(sq: int)
    requires IsSquare(sq)
    ensures File(Mirror(sq)) == File(sq) && Rank(Mirror(sq)) == 7 - Rank(sq)
  {
    MirrorIs(sq);
    IndexValue(sq);
    MirrorBits(Index(sq));
  }

  /** Mirroring twice gives the square back. */
  lemma MirrorInvolution(sq: int)
    requires IsSquare(sq)
    ensures Mirror(Mirror(sq)) == sq
  {
    var m := Mirror(sq);
    MirrorFileRank(sq);
    MirrorFileRank(m);
    assert Mirror(m) == Rank(Mirror(m)) * 8 + File(Mirror(m));
    assert sq == Rank(sq) * 8 + File(sq);
  }

  /** The shift amount of a mirrored square is the square's, xor 56. */
  lemma MirrorIndex(sq: int)
    requires IsSquare(sq)
    ensures Index(Mirror(sq)) == Index(sq) ^ 56
  {
    MirrorIs(sq);
    IndexOf(Index(sq) ^ 56);
  }

  // ---------------------------------------------------------------------
  // Piece-square tables, White's view, indexed by square (a1 = 0)

  const PST_PAWN: seq<int> :=
      [0,  0,  0,  0,  0,  0,  0,  0]
    + [10, 10, 10, 10, 10, 10, 10, 10]
    + [2,  2,  4,  6,  6,  4,  2,  2]
    + [1,  1,  2,  5,  5,  2,  1,  1]
    + [0,  0,  1,  4,  4,  1,  0,  0]
    + [1, -1,  0,  2,  2,  0, -1,  1]
    + [1,  2,  2, -2, -2,  2,  2,  1]
    + [0,  0,  0,  0,  0,  0,  0,  0]

  const PST_KNIGHT: seq<int> :=
      [-5, -4, -3, -3, -3, -3, -4, -5]
    + [-4, -2,  0,  0,  0,  0, -2, -4]
    + [-3,  0,  1,  2,  2,  1,  0, -3]
    + [-3,  1,  2,  3,  3,  2,  1, -3]
    + [-3,  0,  2,  3,  3,  2,  0, -3]
    + [-3,  1,  1,  2,  2,  1,  1, -3]
    + [-4, -2,  0,  1,  1,  0, -2, -4]
    + [-5, -4, -3, -3, -3, -3, -4, -5]

  const PST_BISHOP: seq<int> :=
      [-2, -1, -1, -1, -1, -1, -1, -2]
    + [-1,  0,  0,  0,  0,  0,  0, -1]
    + [-1,  0,  1,  1,  1,  1,  0, -1]
    + [-1,  1,  1,  2,  2,  1,  1, -1]
    + [-1,  0,  1,  2,  2,  1,  0, -1]
    + [-1,  1,  1,  1,  1,  1,  1, -1]
    + [-1,  0,  0,  0,  0,  0,  0, -1]
    + [-2, -1, -1, -1, -1, -1, -1, -2]

  const PST_ROOK: seq<int> :=
      [0,  0,  1,  2,  2,  1,  0,  0]
    + [-1,  0,  0,  0,  0,  0,  0, -1]
    + [-1,  0,  0,  0,  0,  0,  0, -1]
    + [-1,  0,  0,  0,  0,  0,  0, -1]
    + [-1,  0,  0,  0,  0,  0,  0, -1]
    + [-1,  0,  0,  0,  0,  0,  0, -1]
    + [1,  2,  2,  2,  2,  2,  2,  1]
    + [0,  0,  0,  1,  1,  0,  0,  0]

  const PST_QUEEN: seq<int> :=
      [-2, -1, -1,  0,  0, -1, -1, -2]
    + [-1,  0,  0,  0,  0,  0,  0, -1]
    + [-1,  0,  1,  1,  1,  1,  0, -1]
    + [0,  0,  1,  1,  1,  1,  0,  0]
    + [-1,  0,  1,  1,  1,  1,  0, -1]
    + [-1,  0,  1,  1,  1,  1,  0, -1]
    + [-1,  0,  0,  0,  0,  0,  0, -1]
    + [-2, -1, -1,  0,  0, -1, -1, -2]

  const PST_KING: seq<int> :=
      [-3, -4, -4, -5, -5, -4, -4, -3]
    + [-3, -4, -4, -5, -5, -4, -4, -3]
    + [-3, -4, -4, -5, -5, -4, -4, -3]
    + [-3, -4, -4, -5, -5, -4, -4, -3]
    + [-2, -3, -3, -4, -4, -3, -3, -2]
    + [-1, -2, -2, -2, -2, -2, -2, -1]
    + [2,  2,  0,  0,  0,  0,  2,  2]
    + [2,  3,  1,  0,  0,  1,  3,  2]

  /** The table of a piece kind (0 pawn ... 5 king). */
  function Table(kind: int): (t: seq<int>)
    requires 0 <= kind < 6
    ensures |t| == 64
  {
    if kind == 0 then PST_PAWN
    else if kind == 1 then PST_KNIGHT
    else if kind == 2 then PST_BISHOP
    else if kind == 3 then PST_ROOK
    else if kind == 4 then PST_QUEEN
    else PST_KING
  }

  /** The largest entry of any table, in absolute value. */
  const PST_BOUND := 10

  predicate TableBounded(t: seq<int>)
  {
    forall i :: 0 <= i < |t| ==> -PST_BOUND <= t[i] <= PST_BOUND
  }

  lemma PawnTableBounded() ensures |PST_PAWN| == 64 && TableBounded(PST_PAWN) {}
  lemma KnightTableBounded() ensures |PST_KNIGHT| == 64 && TableBounded(PST_KNIGHT) {}
  lemma BishopTableBounded() ensures |PST_BISHOP| == 64 && TableBounded(PST_BISHOP) {}
  lemma RookTableBounded() ensures |PST_ROOK| == 64 && TableBounded(PST_ROOK) {}
  lemma QueenTableBounded() ensures |PST_QUEEN| == 64 && TableBounded(PST_QUEEN) {}
  lemma KingTableBounded() ensures |PST_KING| == 64 && TableBounded(PST_KING) {}

  /** Every entry of every table lies within `PST_BOUND`. */
  lemma TablesBounded(kind: int)
    requires 0 <= kind < 6
    ensures TableBounded(Table(kind))
  {
    if kind == 0 { PawnTableBounded(); }
    else if kind == 1 { KnightTableBounded(); }
    else if kind == 2 { BishopTableBounded(); }
    else if kind == 3 { RookTableBounded(); }
    else if kind == 4 { QueenTableBounded(); }
    else { KingTableBounded(); }
  }

  // ---------------------------------------------------------------------
  // pstSum

  /** The table entry a piece on `sq` reads: its own square for White, the
      mirrored square for Black. */
  function PstIndex(sq: int, white: bool): (i: int)
    requires IsSquare(sq)
    ensures IsSquare(i)
  {
    if white then sq else Mirror(sq)
  }

  /** The table summed over the listed squares, in list order. */
  function ListSum(pst: seq<int>, l: seq<int>, white: bool): int
    requires |pst| == 64 && forall i :: 0 <= i < |l| ==> IsSquare(l[i])
  {
    if l == [] then 0 else pst[PstIndex(l[0], white)] + ListSum(pst, l[1..], white)
  }

  /** What `pstSum(pst, pieces, isWhite)` adds up: one table entry per
      square of `pieces`, in the order `poplsb` drains them. */
  function PstTotal(pst: seq<int>, pieces: Bitboard, white: bool): int
    requires |pst| == 64
  {
    PstTotalAfter(pst, pieces, white, 1)
  }

  /** `PstTotal` behind `n` trivial steps, so that the drain order is
      unfolded only where a proof asks for it (`PstTotalIs`). */
  function PstTotalAfter(pst: seq<int>, pieces: Bitboard, white: bool, n: nat): int
    requires |pst| == 64
  {
    if n == 0 then ListSum(pst, SquareList(pieces), white) else PstTotalAfter(pst, pieces, white, n - 1)
  }

  lemma PstTotalIs(pst: seq<int>, pieces: Bitboard, white: bool)
    requires |pst| == 64
    ensures PstTotal(pst, pieces, white) == ListSum(pst, SquareList(pieces), white)
  {
    assert PstTotalAfter(pst, pieces, white, 1) == PstTotalAfter(pst, pieces, white, 0);
  }

  lemma ListSumCons(pst: seq<int>, x: int, t: seq<int>, white: bool)
    requires |pst| == 64 && IsSquare(x) && forall i :: 0 <= i < |t| ==> IsSquare(t[i])
    ensures ListSum(pst, [x] + t, white) == pst[PstIndex(x, white)] + ListSum(pst, t, white)
  {
    assert ([x] + t)[1..] == t;
  }

  /** `pstSum`: drain the bitboard with `poplsb`, adding the table entry of
      each square (mirrored for Black). */
  method PstSum(pst: seq<int>, pieces: Bitboard, isWhite: bool) returns (s: int)
    requires |pst| == 64
    ensures s == PstTotal(pst, pieces, isWhite)
  {
    s := 0;
    var bb := pieces;
    while bb != 0
      invariant s + PstTotal(pst, bb, isWhite) == PstTotal(pst, pieces, isWhite)
      decreases |Squares(bb)|
    {
      var one, rest := PopLsb(bb);
      LsbOfBit(Lsb(bb));
      var sq := Lsb(one);
      var idx := if isWhite then sq else Mirror(sq);
      ListSumCons(pst, sq, SquareList(rest), isWhite);
      PstTotalIs(pst, bb, isWhite);
      PstTotalIs(pst, rest, isWhite);
      s := s + pst[idx];
      bb := rest;
    }
    PstTotalIs(pst, bb, isWhite);
    ZeroSquares();
  }

  // ---------------------------------------------------------------------
  // The same sum, square by square

  /** The entry square `sq` contributes to the sum over `b`. */
  function Term(pst: seq<int>, b: Bitboard, white: bool, sq: int): int
    requires |pst| == 64 && IsSquare(sq)
  {
    if Has(b, sq) then pst[PstIndex(sq, white)] else 0
  }

  /** The contributions of the squares below `n`, in square order. */
  function BoardSum(pst: seq<int>, b: Bitboard, white: bool, n: int): int
    requires |pst| == 64 && 0 <= n <= 64
  {
    if n == 0 then 0 else BoardSum(pst, b, white, n - 1) + Term(pst, b, white, n - 1)
  }

  lemma {:induction false} BoardSumEmpty(pst: seq<int>, b: Bitboard, white: bool, n: int)
    requires |pst| == 64 && 0 <= n <= 64 && Squares(b) == {}
    ensures BoardSum(pst, b, white, n) == 0
  {
    if n > 0 {
      assert n - 1 !in Squares(b);
      BoardSumEmpty(pst, b, white, n - 1);
    }
  }

  /** Taking one square out of a bitboard takes its entry out of the sum. */
  lemma {:induction false} BoardSumRemove(pst: seq<int>, b: Bitboard, c: Bitboard, k: int, white: bool, n: int)
    requires |pst| == 64 && 0 <= n <= 64
    requires k in Squares(b) && Squares(c) == Squares(b) - {k}
    ensures BoardSum(pst, b, white, n) == BoardSum(pst, c, white, n) + (if k < n then pst[PstIndex(k, white)] else 0)
  {
    if n > 0 {
      BoardSumRemove(pst, b, c, k, white, n - 1);
      if n - 1 == k {
        assert k !in Squares(c);
      } else {
        assert Has(b, n - 1) == Has(c, n - 1) by {
          assert n - 1 in Squares(b) <==> n - 1 in Squares(c);
        }
      }
    }
  }

  /** The drain order does not matter: `pstSum` is the square-by-square sum. */
  lemma {:induction false} PstTotalIsBoardSum(pst: seq<int>, b: Bitboard, white: bool)
    requires |pst| == 64
    ensures PstTotal(pst, b, white) == BoardSum(pst, b, white, 64)
    decreases |Squares(b)|
  {
    if b == 0 {
      ZeroSquares();
      PstTotalIs(pst, b, white);
      BoardSumEmpty(pst, b, white, 64);
    } else {
      ClearLowest(b);
      var rest := b & (b - 1);
      PstTotalIsBoardSum(pst, rest, white);
      PstTotalIs(pst, b, white);
      PstTotalIs(pst, rest, white);
      ListSumCons(pst, Lsb(b), SquareList(rest), white);
      BoardSumRemove(pst, b, rest, Lsb(b), white, 64);
    }
  }

  // ---------------------------------------------------------------------
  // Mirrored bitboards

  /** `b2` holds exactly the mirror images of the squares of `b`. */
  ghost predicate MirrorOf(b2: Bitboard, b: Bitboard)
  {
    MirrorOfAfter(b2, b, 1)
  }

  /** `MirrorOf` behind `n` trivial steps, so that its quantifier is
      unfolded only where a proof asks for it (`MirrorOfIs`). */
  ghost predicate MirrorOfAfter(b2: Bitboard, b: Bitboard, n: nat)
  {
    if n == 0 then forall sq {:trigger Has(b2, sq)} :: IsSquare(sq) ==> (Has(b2, sq) <==> Has(b, Mirror(sq)))
    else MirrorOfAfter(b2, b, n - 1)
  }

  lemma MirrorOfIs(b2: Bitboard, b: Bitboard)
    ensures MirrorOf(b2, b) <==> forall sq {:trigger Has(b2, sq)} :: IsSquare(sq) ==> (Has(b2, sq) <==> Has(b, Mirror(sq)))
  {
    assert MirrorOfAfter(b2, b, 1) == MirrorOfAfter(b2, b, 0);
  }

  /** The mirror image of a square of `b` is a square of `b2`. */
  lemma MirrorHolds(b: Bitboard, b2: Bitboard, k: int)
    requires MirrorOf(b2, b) && k in Squares(b)
    ensures Mirror(k) in Squares(b2)
  {
    MirrorOfIs(b2, b);
    MirrorInvolution(k);
    assert Has(b2, Mirror(k)) <==> Has(b, Mirror(Mirror(k)));
  }

  /** Taking a square out of `b` and its image out of `b2` keeps them
      mirrored. */
  lemma MirrorRest(b: Bitboard, b2: Bitboard, k: int, rest: Bitboard, rest2: Bitboard)
    requires MirrorOf(b2, b) && IsSquare(k)
    requires Squares(rest) == Squares(b) - {k} && Squares(rest2) == Squares(b2) - {Mirror(k)}
    ensures MirrorOf(rest2, rest)
  {
    MirrorOfIs(b2, b);
    MirrorOfIs(rest2, rest);
    forall sq | IsSquare(sq)
      ensures Has(rest2, sq) <==> Has(rest, Mirror(sq))
    {
      MirrorInvolution(sq);
      MirrorInvolution(k);
      assert Mirror(sq) in Squares(rest) <==> Mirror(sq) in Squares(b) && Mirror(sq) != k;
      assert sq in Squares(rest2) <==> sq in Squares(b2) && sq != Mirror(k);
    }
  }

  /** A bitboard mirroring the empty one is empty. */
  lemma MirrorEmpty(b: Bitboard, b2: Bitboard)
    requires MirrorOf(b2, b) && Squares(b) == {}
    ensures Squares(b2) == {}
  {
    MirrorOfIs(b2, b);
    forall sq | IsSquare(sq) ensures !Has(b2, sq) {
      assert Mirror(sq) !in Squares(b);
    }
  }

  /** The mirror image of a square, read from the other side, is the same
      table entry. */
  lemma PstIndexMirror(k: int, white: bool)
    requires IsSquare(k)
    ensures PstIndex(Mirror(k), !white) == PstIndex(k, white)
  {
    MirrorInvolution(k);
  }

  /** A non-empty bitboard is one square plus a smaller bitboard. */
  lemma TakeSquare(b: Bitboard) returns (k: int, rest: Bitboard)
    requires b != 0
    ensures k in Squares(b) && Squares(rest) == Squares(b) - {k}
    ensures |Squares(rest)| < |Squares(b)|
  {
    ClearLowest(b);
    k := Lsb(b);
    rest := b & (b - 1);
  }

  /** Any square can be cleared from a bitboard. */
  lemma DropSquare(b: Bitboard, k: int) returns (rest: Bitboard)
    requires IsSquare(k)
    ensures Squares(rest) == Squares(b) - {k}
  {
    ClearSquares(b, k);
    rest := b & !Bit(k);
  }

  /** A table summed over a bitboard from White's side equals it summed over
      the mirrored bitboard from Black's, and the other way round. */
  lemma {:induction false} MirrorSums(pst: seq<int>, b: Bitboard, b2: Bitboard, white: bool)
    requires |pst| == 64 && MirrorOf(b2, b)
    ensures BoardSum(pst, b2, !white, 64) == BoardSum(pst, b, white, 64)
    decreases |Squares(b)|
  {
    if b == 0 {
      ZeroSquares();
      MirrorEmpty(b, b2);
      BoardSumEmpty(pst, b, white, 64);
      BoardSumEmpty(pst, b2, !white, 64);
    } else {
      var k, rest := TakeSquare(b);
      var rest2 := DropSquare(b2, Mirror(k));
      MirrorRest(b, b2, k, rest, rest2);
      MirrorHolds(b, b2, k);
      MirrorSums(pst, rest, rest2, white);
      BoardSumRemove(pst, b, rest, k, white, 64);
      BoardSumRemove(pst, b2, rest2, Mirror(k), !white, 64);
      PstIndexMirror(k, white);
    }
  }

  /** Mirrored bitboards hold as many squares. */
  lemma {:induction false} MirrorCount(b: Bitboard, b2: Bitboard)
    requires MirrorOf(b2, b)
    ensures |Squares(b2)| == |Squares(b)|
    decreases |Squares(b)|
  {
    if b == 0 {
      ZeroSquares();
      MirrorEmpty(b, b2);
    } else {
      var k, rest := TakeSquare(b);
      var rest2 := DropSquare(b2, Mirror(k));
      MirrorRest(b, b2, k, rest, rest2);
      MirrorHolds(b, b2, k);
      MirrorCount(rest, rest2);
    }
  }

  // ---------------------------------------------------------------------
  // eval

  const VAL_PAWN := 100
  const VAL_KNIGHT := 320
  const VAL_BISHOP := 330
  const VAL_ROOK := 500
  const VAL_QUEEN := 900

  /** The material term: White's pieces counted at their values, Black's
      subtracted; kings carry no material value. */
  function Material(pcs: seq<Bitboard>): int
    requires |pcs| == 12
  {
    Popcount(pcs[WP]) * VAL_PAWN + Popcount(pcs[WN]) * VAL_KNIGHT
    + Popcount(pcs[WB]) * VAL_BISHOP + Popcount(pcs[WR]) * VAL_ROOK
    + Popcount(pcs[WQ]) * VAL_QUEEN
    - Popcount(pcs[BP]) * VAL_PAWN - Popcount(pcs[BN]) * VAL_KNIGHT
    - Popcount(pcs[BB]) * VAL_BISHOP - Popcount(pcs[BR]) * VAL_ROOK
    - Popcount(pcs[BQ]) * VAL_QUEEN
  }

  /** The table sum of one side: each kind's table over that side's pieces,
      read from that side's point of view. */
  function SidePst(pcs: seq<Bitboard>, c: Color): int
    requires |pcs| == 12
  {
    var w := c == White;
    PstTotal(PST_PAWN, pcs[PieceOf(c, 0)], w) + PstTotal(PST_KNIGHT, pcs[PieceOf(c, 1)], w)
    + PstTotal(PST_BISHOP, pcs[PieceOf(c, 2)], w) + PstTotal(PST_ROOK, pcs[PieceOf(c, 3)], w)
    + PstTotal(PST_QUEEN, pcs[PieceOf(c, 4)], w) + PstTotal(PST_KING, pcs[PieceOf(c, 5)], w)
  }

  /** The score in White's frame. */
  function WhiteScore(pcs: seq<Bitboard>): int
    requires |pcs| == 12
  {
    Material(pcs) + SidePst(pcs, White) - SidePst(pcs, Black)
  }

  /** `eval(b)`: the White-frame score for White to move, its negation for
      Black; it depends on the pieces and the side to move only. */
  function Evaluate(pcs: seq<Bitboard>, stm: Color): int
    requires |pcs| == 12
  {
    if stm == White then WhiteScore(pcs) else -WhiteScore(pcs)
  }

  /** `eval(b)`: material by `popcount`, then the twelve `pstSum` calls, in
      the source's order; it reads the pieces and the side to move and
      changes nothing. */
  method Eval(b: Board) returns (score: int)
    requires |b.pcs| == 12
    ensures score == Evaluate(b.pcs, b.stm)
  {
    var pcs := b.pcs;
    score := 0;
    score := score + Popcount(pcs[WP]) * VAL_PAWN;
    score := score + Popcount(pcs[WN]) * VAL_KNIGHT;
    score := score + Popcount(pcs[WB]) * VAL_BISHOP;
    score := score + Popcount(pcs[WR]) * VAL_ROOK;
    score := score + Popcount(pcs[WQ]) * VAL_QUEEN;
    score := score - Popcount(pcs[BP]) * VAL_PAWN;
    score := score - Popcount(pcs[BN]) * VAL_KNIGHT;
    score := score - Popcount(pcs[BB]) * VAL_BISHOP;
    score := score - Popcount(pcs[BR]) * VAL_ROOK;
    score := score - Popcount(pcs[BQ]) * VAL_QUEEN;
    assert score == Material(pcs);
    var w1 := PstSum(PST_PAWN, pcs[WP], true);
    var w2 := PstSum(PST_KNIGHT, pcs[WN], true);
    var w3 := PstSum(PST_BISHOP, pcs[WB], true);
    var w4 := PstSum(PST_ROOK, pcs[WR], true);
    var w5 := PstSum(PST_QUEEN, pcs[WQ], true);
    var w6 := PstSum(PST_KING, pcs[WK], true);
    var pstWhite := w1 + w2 + w3 + w4 + w5 + w6;
    assert pstWhite == SidePst(pcs, White);
    var b1 := PstSum(PST_PAWN, pcs[BP], false);
    var b2 := PstSum(PST_KNIGHT, pcs[BN], false);
    var b3 := PstSum(PST_BISHOP, pcs[BB], false);
    var b4 := PstSum(PST_ROOK, pcs[BR], false);
    var b5 := PstSum(PST_QUEEN, pcs[BQ], false);
    var b6 := PstSum(PST_KING, pcs[BK], false);
    var pstBlack := b1 + b2 + b3 + b4 + b5 + b6;
    assert pstBlack == SidePst(pcs, Black);
    score := score + pstWhite;
    score := score - pstBlack;
    score := if b.stm == White then score else -score;
  }

  // ---------------------------------------------------------------------
  // Properties of the evaluation

  /** The material value of a piece index: 100, 320, 330, 500, 900 for
      pawns to queens of either colour, 0 for kings. */
  function PieceValue(piece: int): (v: int)
    requires IsPiece(piece)
  {
    var kind := piece % 6;
    if kind == 0 then VAL_PAWN
    else if kind == 1 then VAL_KNIGHT
    else if kind == 2 then VAL_BISHOP
    else if kind == 3 then VAL_ROOK
    else if kind == 4 then VAL_QUEEN
    else 0
  }

  /** Setting a square a bitboard does not hold adds one to its count. */
  lemma PopcountAdd(b: Bitboard, sq: int)
    requires IsSquare(sq) && !Has(b, sq)
    ensures Popcount(b | Bit(sq)) == Popcount(b) + 1
  {
    SetSquares(b, sq);
    PopcountIs(b);
    PopcountIs(b | Bit(sq));
    assert sq !in Squares(b);
  }

  /** Putting one more piece on an empty square of its bitboard raises the
      material term by its value for White and lowers it for Black. */
  lemma MaterialAddsValue(pcs: seq<Bitboard>, piece: int, sq: int)
    requires |pcs| == 12 && IsPiece(piece) && IsSquare(sq) && !Has(pcs[piece], sq)
    ensures Material(pcs[piece := pcs[piece] | Bit(sq)])
         == Material(pcs) + (if ColorOf(piece) == White then PieceValue(piece) else -PieceValue(piece))
  {
    PopcountAdd(pcs[piece], sq);
    MaterialUpdate(pcs, piece, pcs[piece] | Bit(sq));
  }

  /** Material changes by one piece's value when that piece's count grows
      by one. */
  lemma MaterialUpdate(pcs: seq<Bitboard>, piece: int, x: Bitboard)
    requires |pcs| == 12 && IsPiece(piece) && Popcount(x) == Popcount(pcs[piece]) + 1
    ensures Material(pcs[piece := x])
         == Material(pcs) + (if ColorOf(piece) == White then PieceValue(piece) else -PieceValue(piece))
  {
    var pcs2 := pcs[piece := x];
    var c := seq(12, i requires 0 <= i < 12 => Popcount(pcs[i]));
    var c2 := seq(12, i requires 0 <= i < 12 => Popcount(pcs2[i]));
    assert c2 == c[piece := c[piece] + 1];
    assert Material(pcs) == Weighted(c);
    assert Material(pcs2) == Weighted(c2);
    WeightedAdd(c, piece);
  }

  lemma WeightedAdd(c: seq<int>, piece: int)
    requires |c| == 12 && IsPiece(piece)
    ensures Weighted(c[piece := c[piece] + 1])
         == Weighted(c) + (if ColorOf(piece) == White then PieceValue(piece) else -PieceValue(piece))
  {
  }

  function Weighted(c: seq<int>): int
    requires |c| == 12
  {
    c[WP] * VAL_PAWN + c[WN] * VAL_KNIGHT + c[WB] * VAL_BISHOP + c[WR] * VAL_ROOK + c[WQ] * VAL_QUEEN
    - c[BP] * VAL_PAWN - c[BN] * VAL_KNIGHT - c[BB] * VAL_BISHOP - c[BR] * VAL_ROOK - c[BQ] * VAL_QUEEN
  }

  /** Whose turn it is only decides the sign. */
  lemma SideToMoveNegates(pcs: seq<Bitboard>, stm: Color)
    requires |pcs| == 12
    ensures Evaluate(pcs, Other(stm)) == -Evaluate(pcs, stm)
    ensures Evaluate(pcs, stm) == (if stm == White then WhiteScore(pcs) else -WhiteScore(pcs))
  {
  }

  /** The piece index of the same kind and the other colour. */
  function Swapped(i: int): (j: int)
    requires IsPiece(i)
    ensures IsPiece(j) && j % 6 == i % 6 && ColorOf(j) != ColorOf(i)
  {
    if i < 6 then i + 6 else i - 6
  }

  /** `pcs2` is `pcs` with the colours swapped and every square mirrored. */
  ghost predicate Mirrored(pcs2: seq<Bitboard>, pcs: seq<Bitboard>)
  {
    |pcs| == 12 && |pcs2| == 12
    && forall i :: 0 <= i < 12 ==> MirrorOf(pcs2[i], pcs[Swapped(i)])
  }

  /** A table sum and a count on a bitboard and its mirror image, the
      image read from the other side. */
  lemma MirrorTotals(pst: seq<int>, b: Bitboard, b2: Bitboard, white: bool)
    requires |pst| == 64 && MirrorOf(b2, b)
    ensures PstTotal(pst, b2, !white) == PstTotal(pst, b, white)
    ensures Popcount(b2) == Popcount(b)
  {
    MirrorSums(pst, b, b2, white);
    MirrorCount(b, b2);
    PopcountIs(b);
    PopcountIs(b2);
    PstTotalIsBoardSum(pst, b2, !white);
    PstTotalIsBoardSum(pst, b, white);
  }

  /** One kind's table sum on mirrored, colour-swapped bitboards. */
  lemma TableMirror(pcs2: seq<Bitboard>, pcs: seq<Bitboard>, kind: int)
    requires Mirrored(pcs2, pcs) && 0 <= kind < 6
    ensures PstTotal(Table(kind), pcs2[kind + 6], false) == PstTotal(Table(kind), pcs[kind], true)
    ensures PstTotal(Table(kind), pcs2[kind], true) == PstTotal(Table(kind), pcs[kind + 6], false)
    ensures Popcount(pcs2[kind + 6]) == Popcount(pcs[kind])
    ensures Popcount(pcs2[kind]) == Popcount(pcs[kind + 6])
  {
    assert Swapped(kind) == kind + 6 && Swapped(kind + 6) == kind;
    MirrorTotals(Table(kind), pcs[kind], pcs2[kind + 6], true);
    MirrorTotals(Table(kind), pcs[kind + 6], pcs2[kind], false);
  }

  /** Colour symmetry: swapping the colours of all pieces, mirroring every
      square and handing the move to the other side leaves the evaluation
      unchanged. */
  lemma ColourSymmetry(pcs: seq<Bitboard>, pcs2: seq<Bitboard>, stm: Color)
    requires Mirrored(pcs2, pcs)
    ensures WhiteScore(pcs2) == -WhiteScore(pcs)
    ensures Evaluate(pcs2, Other(stm)) == Evaluate(pcs, stm)
  {
    TableMirror(pcs2, pcs, 0);
    TableMirror(pcs2, pcs, 1);
    TableMirror(pcs2, pcs, 2);
    TableMirror(pcs2, pcs, 3);
    TableMirror(pcs2, pcs, 4);
    TableMirror(pcs2, pcs, 5);
  }

  // ---------------------------------------------------------------------
  // The start position

  /** Bit by bit, each start bitboard is the other colour's same piece
      turned upside down. */
  lemma StartMirrorBits(kind: int, s: bv6)
    requires 0 <= kind < 6
    ensures HasAt(StartPieces[kind], s) == HasAt(StartPieces[kind + 6], s ^ 56)
  {
  }

  /** The start position is its own colour-swapped mirror image. */
  lemma StartMirrored()
    ensures Mirrored(StartPieces, StartPieces)
  {
    forall i | 0 <= i < 12
      ensures MirrorOf(StartPieces[i], StartPieces[Swapped(i)])
    {
      MirrorOfIs(StartPieces[i], StartPieces[Swapped(i)]);
      forall sq | IsSquare(sq)
        ensures Has(StartPieces[i], sq) <==> Has(StartPieces[Swapped(i)], Mirror(sq))
      {
        MirrorIndex(sq);
        if i < 6 {
          StartMirrorBits(i, Index(sq));
        } else {
          StartMirrorBits(i - 6, Index(sq) ^ 56);
          assert Index(sq) ^ 56 ^ 56 == Index(sq);
        }
      }
    }
  }

  /** The start position scores 0 whichever side is to move. */
  lemma StartEvaluatesZero()
    ensures Evaluate(StartPieces, White) == 0 && Evaluate(StartPieces, Black) == 0
  {
    StartMirrored();
    ColourSymmetry(StartPieces, StartPieces, White);
  }

  // ---------------------------------------------------------------------
  // Bounds

  /** A set of integers below `n` has at most `n` members. */
  lemma {:induction false} BelowCard(a: set<int>, n: nat)
    requires forall x :: x in a ==> 0 <= x < n
    ensures |a| <= n
  {
    if n == 0 {
      forall x | x in a ensures false { }
      assert a == {};
    } else {
      var r := a - {n - 1};
      BelowCard(r, n - 1);
      if n - 1 in a {
        assert a == r + {n - 1};
      } else {
        assert a == r;
      }
    }
  }

  /** A bitboard holds at most 64 squares. */
  lemma PopcountAtMost64(b: Bitboard)
    ensures Popcount(b) <= 64
  {
    PopcountIs(b);
    BelowCard(Squares(b), 64);
  }

  /** A sum of `n` entries of a bounded table is at most `n` bounds. */
  lemma {:induction false} ListSumBounded(pst: seq<int>, l: seq<int>, white: bool)
    requires |pst| == 64 && TableBounded(pst) && forall i :: 0 <= i < |l| ==> IsSquare(l[i])
    ensures -PST_BOUND * |l| <= ListSum(pst, l, white) <= PST_BOUND * |l|
  {
    if l != [] {
      ListSumBounded(pst, l[1..], white);
    }
  }

  /** One `pstSum` lies within 640 of zero. */
  lemma PstTotalBounded(kind: int, b: Bitboard, white: bool)
    requires 0 <= kind < 6
    ensures -640 <= PstTotal(Table(kind), b, white) <= 640
  {
    TablesBounded(kind);
    PstTotalIs(Table(kind), b, white);
    DrainOrder(b);
    PopcountAtMost64(b);
    ListSumBounded(Table(kind), SquareList(b), white);
  }

  /** The material term lies within 64 pieces of each kind a side. */
  lemma MaterialBounded(pcs: seq<Bitboard>)
    requires |pcs| == 12
    ensures -137600 <= Material(pcs) <= 137600
  {
    var c := seq(12, i requires 0 <= i < 12 => Popcount(pcs[i]));
    forall i | 0 <= i < 12 ensures 0 <= c[i] <= 64 {
      PopcountAtMost64(pcs[i]);
    }
    assert Material(pcs) == Weighted(c);
    WeightedBounded(c);
  }

  lemma WeightedBounded(c: seq<int>)
    requires |c| == 12 && forall i :: 0 <= i < 12 ==> 0 <= c[i] <= 64
    ensures -137600 <= Weighted(c) <= 137600
  {
  }

  /** The table sum of one side lies within 6 * 640 of zero. */
  lemma SidePstBounded(pcs: seq<Bitboard>, c: Color)
    requires |pcs| == 12
    ensures -3840 <= SidePst(pcs, c) <= 3840
  {
    var w := c == White;
    PstTotalBounded(0, pcs[PieceOf(c, 0)], w);
    PstTotalBounded(1, pcs[PieceOf(c, 1)], w);
    PstTotalBounded(2, pcs[PieceOf(c, 2)], w);
    PstTotalBounded(3, pcs[PieceOf(c, 3)], w);
    PstTotalBounded(4, pcs[PieceOf(c, 4)], w);
    PstTotalBounded(5, pcs[PieceOf(c, 5)], w);
  }

  /** Every evaluation lies strictly between -EVAL_LIMIT and EVAL_LIMIT, far
      inside the search's windows and mate scores. */
  const EVAL_LIMIT := 1000000

  lemma EvalBounded(pcs: seq<Bitboard>, stm: Color)
    requires |pcs| == 12
    ensures -EVAL_LIMIT < Evaluate(pcs, stm) < EVAL_LIMIT
  {
    MaterialBounded(pcs);
    SidePstBounded(pcs, White);
    SidePstBounded(pcs, Black);
  }
}
