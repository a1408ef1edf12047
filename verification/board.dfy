/**
 * The mutable board of src/board.h and src/board.cpp.  Its piece bitboards,
 * en-passant square, castling rights and side to move are proved to follow
 * the value-level functions of module Positions step by step, its derived
 * occupancy is kept in step with the pieces, and its undo history records
 * what `MakeMove` saved.
 */
module Boards {
  import opened Bits
  import opened Types
  import opened Positions
  import opened Attacks

  /** Length of the undo history `hist[512]`. */
  const HIST_SIZE := 512

  class Board {
    var pcs: seq<Bitboard>
    var occ: seq<Bitboard>
    var occAll: Bitboard
    var epSquare: int
    var castleRights: bv8
    var stm: Color
    var hist: seq<State>
    var ply: int

    /** The fixed sizes of the C++ arrays. */
    predicate Shaped()
      reads this
    {
      |pcs| == 12 && |occ| == 2 && |hist| == HIST_SIZE && 0 <= ply <= HIST_SIZE
    }

    /** The occupancy is the one `set_occ` derives from the pieces. */
    ghost predicate Occupied()
      reads this`pcs, this`occ, this`occAll
    {
      OccupancyOf(pcs, occ, occAll)
    }

    /** Sizes, and occupancy derived from the pieces. */
    ghost predicate Valid()
      reads this
    {
      Shaped() && Occupied()
    }

    /** The position the board holds. */
    function Pos(): Position
      reads this
    {
      Position(pcs, epSquare, castleRights, stm)
    }

    /** A board with default members: empty, White to move, no history. */
    constructor()
      ensures Valid()
      ensures Pos() == Position(seq(12, _ => 0), -1, 0, White)
      ensures ply == 0 && hist == seq(HIST_SIZE, _ => EmptyState)
    {
      pcs := seq(12, _ => 0);
      occ := [0, 0];
      occAll := 0;
      epSquare := -1;
      castleRights := 0;
      stm := White;
      hist := seq(HIST_SIZE, _ => EmptyState);
      ply := 0;
      new;
      EmptyOccupancy();
    }

    /** `Board test = b`: a copy of every member, history included. */
    constructor Copy(b: Board)
      ensures pcs == b.pcs && occ == b.occ && occAll == b.occAll
      ensures epSquare == b.epSquare && castleRights == b.castleRights && stm == b.stm
      ensures hist == b.hist && ply == b.ply
    {
      pcs, occ, occAll := b.pcs, b.occ, b.occAll;
      epSquare, castleRights, stm := b.epSquare, b.castleRights, b.stm;
      hist, ply := b.hist, b.ply;
    }

    /** `clear`: no pieces, no occupancy, White to move, ply 0, no en-passant
        square and no castling rights; the history is left alone. */
    method Clear()
      requires Shaped()
      modifies this
      ensures Valid()
      ensures Pos() == Position(seq(12, _ => 0), -1, 0, White)
      ensures ply == 0 && hist == old(hist)
    {
      pcs := seq(12, _ => 0);
      occ := [0, 0];
      occAll := 0;
      stm := White;
      ply := 0;
      epSquare := -1;
      castleRights := 0;
      EmptyOccupancy();
    }

    /** `loadFEN`: clear the board; for the literal "startpos" set up the
        start position (with its occupancy) and report success, for any
        other string leave the board cleared and report failure. */
    method LoadFEN(fen: string) returns (ok: bool)
      requires Shaped()
      modifies this
      ensures Valid() && ply == 0 && hist == old(hist)
      ensures ok <==> fen == "startpos"
      ensures ok ==> Pos() == StartPosition
      ensures ok ==> occ == [0xFFFF, 0xFFFF_0000_0000_0000] && occAll == 0xFFFF_0000_0000_FFFF
      ensures !ok ==> Pos() == Position(seq(12, _ => 0), -1, 0, White)
    {
      Clear();
      if fen == "startpos" {
        PlaceStartPieces();
        stm, epSquare, castleRights := White, -1, 0xF;
        return true;
      }
      return false;
    }

    /** The piece assignments and the `set_occ` of `loadFEN("startpos")`. */
    method PlaceStartPieces()
      requires |pcs| == 12 && |occ| == 2
      modifies this`pcs, this`occ, this`occAll
      ensures pcs == StartPieces && occ == [0xFFFF, 0xFFFF_0000_0000_0000]
      ensures occAll == 0xFFFF_0000_0000_FFFF && Occupied()
    {
      pcs := pcs[WR := 0x81][WN := 0x42][WB := 0x24][WQ := 0x08][WK := 0x10][WP := 0xFF00];
      pcs := pcs[BR := 0x8100_0000_0000_0000][BN := 0x4200_0000_0000_0000][BB := 0x2400_0000_0000_0000];
      pcs := pcs[BQ := 0x0800_0000_0000_0000][BK := 0x1000_0000_0000_0000][BP := 0x00FF_0000_0000_0000];
      SetOcc();
      assert pcs == StartPieces;
      StartSound();
      OccupancyUnique(pcs, occ, occAll, [0xFFFF, 0xFFFF_0000_0000_0000], 0xFFFF_0000_0000_FFFF);
    }

    /** `set_occ`: recompute the occupancy from the pieces. */
    method SetOcc()
      requires |pcs| == 12
      modifies this`occ, this`occAll
      ensures Occupied()
    {
      var white := SideOr(White);
      var black := SideOr(Black);
      occ := [white, black];
      occAll := occ[0] | occ[1];
    }

    /** One line of `set_occ`: the or of the six bitboards of colour `c`. */
    method SideOr(c: Color) returns (r: Bitboard)
      requires |pcs| == 12
      ensures Squares(r) == SideSquares(pcs, c)
    {
      if c == White {
        r := pcs[WP] | pcs[WN] | pcs[WB] | pcs[WR] | pcs[WQ] | pcs[WK];
      } else {
        r := pcs[BP] | pcs[BN] | pcs[BB] | pcs[BR] | pcs[BQ] | pcs[BK];
      }
      SideOrSquares(pcs, c, r);
    }

    /** `piece_at`: scan the bitboards in index order for the square. */
    method PieceAt(sq: int) returns (r: int)
      requires |pcs| == 12 && IsSquare(sq)
      ensures r == Positions.PieceAt(pcs, sq)
    {
      var mask := Bit(sq);
      var p := WP;
      while p <= BK
        invariant 0 <= p <= 12
        invariant PieceFrom(pcs, sq, p) == Positions.PieceAt(pcs, sq)
      {
        var hit := pcs[p] & mask != 0;
        MaskHas(pcs[p], sq);
        assert hit == Has(pcs[p], sq);
        if hit {
          return p;
        }
        p := p + 1;
      }
      return NO_PIECE;
    }

    /** `inCheck(c)`: a side without a king is not in check; otherwise the
        lowest square of its king bitboard is examined, in the order of the
        source, against enemy pawns, knights and the enemy king, then along
        the four diagonals for a bishop or queen and along the four ranks
        and files for a rook or queen, each ray stopping at its first
        occupied square.  The answer is `attackedBy` on the king square. */
    method InCheck(c: Color) returns (r: bool)
      requires |pcs| == 12
      ensures r == InCheckWith(pcs, occAll, c)
    {
      var king := if c == White then pcs[WK] else pcs[BK];
      if king == 0 {
        return false;
      }
      r := KingSquareAttacked(pcs, occAll, Lsb(king), Other(c));
    }

    /** `makeMove`: record the undo state in `hist[ply]`, play `m`, recompute
        the occupancy, hand the move to the other side and advance `ply`.
        The new position is `Make` of the old one. */
    method MakeMove(m: Move)
      requires Shaped() && ply < HIST_SIZE && CanMake(Pos(), m)
      modifies this
      ensures Valid()
      ensures Pos() == Make(old(Pos()), m)
      ensures ply == old(ply) + 1
      ensures hist == old(hist)[old(ply) := Saved(old(Pos()), m)]
      ensures hist[old(ply)].last == m && hist[old(ply)].captured == Captured(old(Pos()), m)
      ensures hist[old(ply)].prevEp == old(epSquare) && hist[old(ply)].prevCastle == old(castleRights)
    {
      var movingPiece, capturedPiece := SaveState(m);
      Play(m, movingPiece, capturedPiece);
      EndTurn();
    }

    /** The last steps of `makeMove`: recompute the occupancy, hand the move
        to the other side and advance `ply`. */
    method EndTurn()
      requires |pcs| == 12
      modifies this`occ, this`occAll, this`stm, this`ply
      ensures Occupied() && stm == Other(old(stm)) && ply == old(ply) + 1
    {
      SetOcc();
      stm := if stm == White then Black else White;
      ply := ply + 1;
    }

    /** The first steps of `makeMove`: save the move, en-passant square and
        castling rights in `hist[ply]`, look up the moving piece and the
        captured one (the enemy pawn for en passant) and save the latter. */
    method SaveState(m: Move) returns (movingPiece: int, capturedPiece: int)
      requires |pcs| == 12 && |hist| == HIST_SIZE && 0 <= ply < HIST_SIZE && CanMake(Pos(), m)
      modifies this`hist
      ensures Pos() == old(Pos())
      ensures movingPiece == Positions.PieceAt(pcs, m.from) && capturedPiece == Captured(Pos(), m)
      ensures hist == old(hist)[ply := Saved(Pos(), m)]
    {
      hist := hist[ply := hist[ply].(last := m, prevEp := epSquare, prevCastle := castleRights)];
      movingPiece := PieceAt(m.from);
      capturedPiece := PieceAt(m.to);
      if m.flags & MF_ENPASSANT != 0 {
        capturedPiece := if stm == White then BP else WP;
      }
      hist := hist[ply := hist[ply].(captured := capturedPiece)];
    }

    /** The middle of `makeMove`: remove the captured piece, clear the
        en-passant square, update the castling rights and move the pieces;
        bitboards, en-passant square and rights are then those of `Make`. */
    method Play(m: Move, movingPiece: int, capturedPiece: int)
      requires CanMake(Pos(), m)
      requires movingPiece == Positions.PieceAt(pcs, m.from) && capturedPiece == Captured(Pos(), m)
      modifies this`pcs, this`epSquare, this`castleRights
      ensures var q := Make(old(Pos()), m); pcs == q.pcs && epSquare == q.ep && castleRights == q.castle
    {
      MakeIs(Pos(), m);
      RemoveCaptured(m, capturedPiece);
      epSquare := -1;
      castleRights := RightsAfter(castleRights, movingPiece, capturedPiece, m.from, m.to);
      MovePieces(m, movingPiece);
    }

    /** The capture step of `makeMove`: the captured piece leaves the target
        square, or the square behind it for an en-passant capture. */
    method RemoveCaptured(m: Move, capturedPiece: int)
      requires |pcs| == 12 && IsSquare(m.to) && 0 <= capturedPiece <= NO_PIECE
      requires IsEnPassant(m) ==> IsSquare(EpVictim(stm, m.to))
      modifies this`pcs
      ensures pcs == Removed(old(pcs), m, capturedPiece, stm)
    {
      if capturedPiece != NO_PIECE {
        if m.flags & MF_ENPASSANT != 0 {
          var capSq := if stm == White then m.to - 8 else m.to + 8;
          pcs := ClearOn(pcs, capturedPiece, capSq);
        } else {
          pcs := ClearOn(pcs, capturedPiece, m.to);
        }
      }
    }

    /** The execution step of `makeMove`: a promotion replaces the pawn on
        `from` by the promotion piece on `to`; a castling king moves and so
        does its rook; any other piece moves from `from` to `to`, and a
        two-rank pawn push sets the en-passant square it skipped. */
    method MovePieces(m: Move, movingPiece: int)
      requires |pcs| == 12 && IsSquare(m.from) && IsSquare(m.to) && IsPiece(movingPiece)
      requires m.promo != 0 ==> IsPiece(m.promo)
      modifies this`pcs, this`epSquare
      ensures pcs == Placed(old(pcs), m, movingPiece, stm)
      ensures epSquare == if EpOf(m, movingPiece) == -1 then old(epSquare) else EpOf(m, movingPiece)
    {
      if m.promo != 0 {
        pcs := ClearOn(pcs, movingPiece, m.from);
        pcs := SetOn(pcs, m.promo, m.to);
      } else if m.flags & MF_CASTLE != 0 {
        pcs := ClearOn(pcs, movingPiece, m.from);
        pcs := SetOn(pcs, movingPiece, m.to);
        MoveCastlingRook(m.to);
      } else {
        pcs := ClearOn(pcs, movingPiece, m.from);
        pcs := SetOn(pcs, movingPiece, m.to);
        if movingPiece == WP && m.to - m.from == 16 { epSquare := m.from + 8; }
        if movingPiece == BP && m.from - m.to == 16 { epSquare := m.from - 8; }
      }
    }

    /** The rook half of castling in `makeMove`: h1 to f1, a1 to d1, h8 to f8
        or a8 to d8, by the side to move and the king's target. */
    method MoveCastlingRook(to: int)
      requires |pcs| == 12
      modifies this`pcs
      ensures pcs == CastleRook(old(pcs), stm, to)
    {
      if stm == White {
        if to == 6 {
          pcs := ClearOn(pcs, WR, 7);
          pcs := SetOn(pcs, WR, 5);
        } else if to == 2 {
          pcs := ClearOn(pcs, WR, 0);
          pcs := SetOn(pcs, WR, 3);
        }
      } else {
        if to == 62 {
          pcs := ClearOn(pcs, BR, 63);
          pcs := SetOn(pcs, BR, 61);
        } else if to == 58 {
          pcs := ClearOn(pcs, BR, 56);
          pcs := SetOn(pcs, BR, 59);
        }
      }
    }

    /** `unmakeMove` as written: step back `ply`, hand the move back, restore
        the en-passant square and castling rights saved in `hist[ply]`, undo
        the piece moves and recompute the occupancy.  The promotion rollback
        picks its pawn after `stm` is already the mover again, so it restores
        the opponent's pawn; the new position is `UndoAsWritten` of the old
        one, which `RoundTripAsWritten` shows to be the position before the
        move for every move without a promotion. */
    method UnmakeMove(m: Move)
      requires Shaped() && 0 < ply && CanUndo(Pos(), m, hist[ply - 1])
      modifies this
      ensures Valid()
      ensures Pos() == UndoAsWritten(old(Pos()), m, old(hist[ply - 1]))
      ensures ply == old(ply) - 1 && hist == old(hist)
    {
      StepBack();
      if m.promo != 0 {
        var pawnPiece := if stm == White then BP else WP;
        RollBackPromotion(m, pawnPiece, hist[ply].captured);
      } else {
        MoveBack(m);
        PutCapturedBack(m, hist[ply].captured);
      }
      SetOcc();
    }

    /** The first steps of `unmakeMove`: `ply` and the side to move step back
        and the saved en-passant square and castling rights return. */
    method StepBack()
      requires |hist| == HIST_SIZE && 0 < ply <= HIST_SIZE
      modifies this`ply, this`stm, this`epSquare, this`castleRights
      ensures ply == old(ply) - 1 && stm == Other(old(stm))
      ensures epSquare == hist[ply].prevEp && castleRights == hist[ply].prevCastle
    {
      ply := ply - 1;
      stm := if stm == White then Black else White;
      epSquare := hist[ply].prevEp;
      castleRights := hist[ply].prevCastle;
    }

    /** The promotion rollback of `unmakeMove`: the promotion piece leaves the
        target, `pawnPiece` returns to the origin and a recorded capture
        returns to the target. */
    method RollBackPromotion(m: Move, pawnPiece: int, cap: int)
      requires |pcs| == 12 && IsSquare(m.from) && IsSquare(m.to) && IsPiece(m.promo) && IsPiece(pawnPiece)
      requires -1 <= cap <= NO_PIECE
      modifies this`pcs
      ensures pcs == PromotionBack(old(pcs), m, pawnPiece, cap)
    {
      pcs := ClearOn(pcs, m.promo, m.to);
      pcs := SetOn(pcs, pawnPiece, m.from);
      if cap != NO_PIECE && cap != -1 {
        pcs := SetOn(pcs, cap, m.to);
      }
    }

    /** `unmakeMove` moving the piece found on the target back to the origin,
        and for castling the rook back to its corner. */
    method MoveBack(m: Move)
      requires |pcs| == 12 && IsSquare(m.from) && IsSquare(m.to)
      requires Positions.PieceAt(pcs, m.to) != NO_PIECE
      modifies this`pcs
      ensures pcs == MovedBack(old(pcs), m, stm)
    {
      var pieceOnTo := PieceAt(m.to);
      pcs := ClearOn(pcs, pieceOnTo, m.to);
      pcs := SetOn(pcs, pieceOnTo, m.from);
      if m.flags & MF_CASTLE != 0 {
        MoveCastlingRookBack(m.to);
      }
    }

    /** The rook half of undoing castling: f1 to h1, d1 to a1, f8 to h8 or d8
        to a8, by the mover and the king's target. */
    method MoveCastlingRookBack(to: int)
      requires |pcs| == 12
      modifies this`pcs
      ensures pcs == CastleRookBack(old(pcs), stm, to)
    {
      if stm == White {
        if to == 6 {
          pcs := ClearOn(pcs, WR, 5);
          pcs := SetOn(pcs, WR, 7);
        } else if to == 2 {
          pcs := ClearOn(pcs, WR, 3);
          pcs := SetOn(pcs, WR, 0);
        }
      } else {
        if to == 62 {
          pcs := ClearOn(pcs, BR, 61);
          pcs := SetOn(pcs, BR, 63);
        } else if to == 58 {
          pcs := ClearOn(pcs, BR, 59);
          pcs := SetOn(pcs, BR, 56);
        }
      }
    }

    /** `unmakeMove` putting a recorded capture back: on the target, or for an
        en-passant capture on the square behind it. */
    method PutCapturedBack(m: Move, cap: int)
      requires |pcs| == 12 && IsSquare(m.to) && -1 <= cap <= NO_PIECE
      requires IsEnPassant(m) && 0 <= cap < NO_PIECE ==> IsSquare(EpVictim(stm, m.to))
      modifies this`pcs
      ensures pcs == PutBack(old(pcs), m, cap, stm)
    {
      if cap != NO_PIECE && cap != -1 {
        if m.flags & MF_ENPASSANT != 0 {
          var capSq := if stm == White then m.to - 8 else m.to + 8;
          pcs := SetOn(pcs, cap, capSq);
        } else {
          pcs := SetOn(pcs, cap, m.to);
        }
      }
    }
  }

  /** Empty bitboards have empty occupancy. */
  lemma EmptyOccupancy()
    ensures OccupancyOf(seq(12, _ => 0), [0, 0], 0)
  {
    var pcs: seq<Bitboard> := seq(12, _ => 0);
    SideOrSquares(pcs, White, 0);
    SideOrSquares(pcs, Black, 0);
  }
}
