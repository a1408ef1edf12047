/**
 * The engine's vocabulary (src/board.h): colours, the twelve piece indices
 * into `pcs[]`, move flags, moves and the per-ply undo record.
 */
module Types {
  datatype Color = White | Black

  function Other(c: Color): (o: Color)
    ensures o != c
  {
    if c == White then Black else White
  }

  /** Piece indices into `pcs[]`, in the order of `enum Piece`. */
  const WP := 0
  const WN := 1
  const WB := 2
  const WR := 3
  const WQ := 4
  const WK := 5
  const BP := 6
  const BN := 7
  const BB := 8
  const BR := 9
  const BQ := 10
  const BK := 11
  const NO_PIECE := 12

  predicate IsPiece(p: int) { 0 <= p < 12 }

  /** The colour a piece index belongs to. */
  function ColorOf(p: int): Color
    requires IsPiece(p)
  {
    if p < 6 then White else Black
  }

  /** The piece of colour `c` of kind `kind` (0 pawn ... 5 king). */
  function PieceOf(c: Color, kind: int): (p: int)
    requires 0 <= kind < 6
    ensures IsPiece(p) && ColorOf(p) == c && p % 6 == kind
  {
    match c
    case White => kind
    case Black => kind + 6
  }

  /** Move flag bits. */
  const MF_NONE: bv8 := 0
  const MF_CAPTURE: bv8 := 1
  const MF_ENPASSANT: bv8 := 2
  const MF_CASTLE: bv8 := 4
  const MF_DOUBLE: bv8 := 8

  /** A move: origin and target squares, the promotion piece (0 for none)
      and the flag bits. */
  datatype Move = Move(from: int, to: int, promo: int, flags: bv8)

  /** `Move{}`. */
  const NullMove := Move(0, 0, 0, 0)

  predicate IsEnPassant(m: Move) { m.flags & MF_ENPASSANT != 0 }
  predicate IsCastle(m: Move) { m.flags & MF_CASTLE != 0 }

  /** What `makeMove` saves so that `unmakeMove` can restore the position:
      the move, the captured piece (-1 none recorded, NO_PIECE nothing
      captured), the previous en-passant square and castling rights. */
  datatype State = State(last: Move, captured: int, prevEp: int, prevCastle: bv8)

  /** `State{}`. */
  const EmptyState := State(NullMove, -1, -1, 0)
}
