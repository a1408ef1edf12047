/**
 * The position as a value: the fields of `Board` (src/board.h) without the
 * undo history, and what `makeMove` and `unmakeMove` (src/board.cpp) do to
 * them. The mutable `Board` class in module Boards is proved against these
 * functions.
 */
module Positions {
  import opened Bits
  import opened Types

  datatype Position = Position(
    pcs: seq<Bitboard>,  // one bitboard per piece index
    ep: int,             // en-passant target square, -1 for none
    castle: bv8,         // bit 0 White king side, 1 White queen side, 2 and 3 Black
    stm: Color)

  predicate Shaped(p: Position)
  {
    |p.pcs| == 12
  }

  // ---------------------------------------------------------------------
  // Derived occupancy (set_occ)

  /** The squares held by any of `pcs[lo..hi]`. */
  ghost function RangeSquares(pcs: seq<Bitboard>, lo: int, hi: int): set<int>
    requires 0 <= lo <= hi <= |pcs|
    decreases |pcs| + hi - lo
  {
    if lo == hi then {} else RangeSquares(pcs, lo, hi - 1) + Squares(pcs[hi - 1])
  }

  /** A square is in the range's squares exactly when some bitboard of the
      range holds it. */
  lemma {:induction false} RangeSquaresHas(pcs: seq<Bitboard>, lo: int, hi: int, sq: int)
    requires 0 <= lo <= hi <= |pcs|
    ensures sq in RangeSquares(pcs, lo, hi) <==> IsSquare(sq) && exists k :: lo <= k < hi && Has(pcs[k], sq)
    decreases hi - lo
  {
    if lo < hi {
      RangeSquaresHas(pcs, lo, hi - 1, sq);
      if IsSquare(sq) && Has(pcs[hi - 1], sq) {
        assert lo <= hi - 1 < hi;
      }
    }
  }

  lemma RangeStep(pcs: seq<Bitboard>, lo: int, hi: int)
    requires 0 <= lo < hi <= |pcs|
    ensures RangeSquares(pcs, lo, hi) == RangeSquares(pcs, lo, hi - 1) + Squares(pcs[hi - 1])
  {
  }

  /** The squares `occ[c]` holds after `set_occ`: those of the six bitboards of colour `c`. */
  ghost function SideSquares(pcs: seq<Bitboard>, c: Color): set<int>
    requires |pcs| == 12
  {
    RangeSquares(pcs, PieceOf(c, 0), PieceOf(c, 0) + 6)
  }

  /** The or of `pcs[lo..hi]`, one bitboard at a time. */
  function UnionRange(pcs: seq<Bitboard>, lo: int, hi: int): Bitboard
    requires 0 <= lo <= hi <= |pcs|
    decreases hi - lo
  {
    if lo == hi then 0 else UnionRange(pcs, lo, hi - 1) | pcs[hi - 1]
  }

  lemma {:induction false} UnionRangeSquares(pcs: seq<Bitboard>, lo: int, hi: int)
    requires 0 <= lo <= hi <= |pcs|
    ensures Squares(UnionRange(pcs, lo, hi)) == RangeSquares(pcs, lo, hi)
    decreases hi - lo
  {
    if lo == hi {
      ZeroSquares();
    } else {
      UnionRangeSquares(pcs, lo, hi - 1);
      OrSquares(UnionRange(pcs, lo, hi - 1), pcs[hi - 1]);
      RangeStep(pcs, lo, hi);
    }
  }

  /** `occ[c]` as `set_occ` derives it: the or of the six bitboards of colour `c`. */
  function SideUnion(pcs: seq<Bitboard>, c: Color): Bitboard
    requires |pcs| == 12
  {
    UnionRange(pcs, PieceOf(c, 0), PieceOf(c, 0) + 6)
  }

  /** `occ[c]` holds exactly the squares of that side's pieces. */
  lemma SideUnionSquares(pcs: seq<Bitboard>, c: Color)
    requires |pcs| == 12
    ensures Squares(SideUnion(pcs, c)) == SideSquares(pcs, c)
  {
    UnionRangeSquares(pcs, PieceOf(c, 0), PieceOf(c, 0) + 6);
  }

  /** The six-way or written out in `set_occ` is `SideUnion`. */
  lemma SixOr(pcs: seq<Bitboard>, c: Color, x: Bitboard)
    requires |pcs| == 12
    requires var lo := PieceOf(c, 0);
      x == pcs[lo] | pcs[lo + 1] | pcs[lo + 2] | pcs[lo + 3] | pcs[lo + 4] | pcs[lo + 5]
    ensures x == SideUnion(pcs, c)
  {
    if c == White {
      assert x == UnionRange(pcs, 0, 6);
    } else {
      assert x == UnionRange(pcs, 6, 12);
    }
  }

  /** The six-way or of `set_occ` holds exactly the squares of side `c`'s pieces. */
  lemma SideOrSquares(pcs: seq<Bitboard>, c: Color, x: Bitboard)
    requires |pcs| == 12
    requires var lo := PieceOf(c, 0);
      x == pcs[lo] | pcs[lo + 1] | pcs[lo + 2] | pcs[lo + 3] | pcs[lo + 4] | pcs[lo + 5]
    ensures Squares(x) == SideSquares(pcs, c)
  {
    SixOr(pcs, c, x);
    SideUnionSquares(pcs, c);
  }

  /** The occupancy `set_occ` derives from the pieces: `occ[c]` holds the
      squares of colour `c`'s pieces and `occAll` is the or of both. */
  ghost predicate OccupancyOf(pcs: seq<Bitboard>, occ: seq<Bitboard>, occAll: Bitboard)
  {
    |pcs| == 12 && |occ| == 2
    && Squares(occ[0]) == SideSquares(pcs, White)
    && Squares(occ[1]) == SideSquares(pcs, Black)
    && occAll == occ[0] | occ[1]
  }

  /** `occAll` as `set_occ` derives it from the pieces. */
  function AllOcc(pcs: seq<Bitboard>): Bitboard
    requires |pcs| == 12
  {
    SideUnion(pcs, White) | SideUnion(pcs, Black)
  }

  /** The pieces determine the occupancy: whatever satisfies `OccupancyOf`
      is the or of each side's six bitboards. */
  lemma OccupancyIs(pcs: seq<Bitboard>, occ: seq<Bitboard>, occAll: Bitboard)
    requires OccupancyOf(pcs, occ, occAll)
    ensures occ == [SideUnion(pcs, White), SideUnion(pcs, Black)] && occAll == AllOcc(pcs)
  {
    SideUnionSquares(pcs, White);
    SideUnionSquares(pcs, Black);
    SquaresInjective(occ[0], SideUnion(pcs, White));
    SquaresInjective(occ[1], SideUnion(pcs, Black));
  }

  /** Two occupancies derived from the same pieces are equal. */
  lemma OccupancyUnique(pcs: seq<Bitboard>, occ1: seq<Bitboard>, all1: Bitboard,
                        occ2: seq<Bitboard>, all2: Bitboard)
    requires OccupancyOf(pcs, occ1, all1) && OccupancyOf(pcs, occ2, all2)
    ensures occ1 == occ2 && all1 == all2
  {
    OccupancyIs(pcs, occ1, all1);
    OccupancyIs(pcs, occ2, all2);
  }

  /** A side's squares are those some piece of that colour stands on. */
  lemma SideSquaresHas(pcs: seq<Bitboard>, c: Color, sq: int)
    requires |pcs| == 12
    ensures sq in SideSquares(pcs, c) <==>
      IsSquare(sq) && exists i :: 0 <= i < 12 && ColorOf(i) == c && Has(pcs[i], sq)
  {
    RangeSquaresHas(pcs, PieceOf(c, 0), PieceOf(c, 0) + 6, sq);
  }

  /** Piece `i`'s bitboard holds `sq`. */
  predicate Held(pcs: seq<Bitboard>, i: int, sq: int)
    requires 0 <= i < |pcs| && IsSquare(sq)
  {
    Has(pcs[i], sq)
  }

  /** No square is held by two piece bitboards. */
  ghost predicate Disjoint(pcs: seq<Bitboard>)
    requires |pcs| == 12
  {
    forall i, j, sq {:trigger Held(pcs, i, sq), Held(pcs, j, sq)} ::
      0 <= i < j < 12 && IsSquare(sq) && Held(pcs, i, sq) ==> !Held(pcs, j, sq)
  }

  /** The invariant every position the engine works on keeps. */
  ghost predicate Valid(p: Position)
  {
    Shaped(p) && Disjoint(p.pcs) && (p.ep == -1 || IsSquare(p.ep))
  }

  // ---------------------------------------------------------------------
  // piece_at

  function PieceFrom(pcs: seq<Bitboard>, sq: int, p: int): (r: int)
    requires |pcs| == 12 && IsSquare(sq) && 0 <= p <= 12
    ensures p <= r <= NO_PIECE
    decreases |pcs| - p
  {
    if p == 12 then NO_PIECE
    else if Has(pcs[p], sq) then p
    else PieceFrom(pcs, sq, p + 1)
  }

  lemma {:induction false} PieceFromFirst(pcs: seq<Bitboard>, sq: int, p: int)
    requires |pcs| == 12 && IsSquare(sq) && 0 <= p <= 12
    ensures var r := PieceFrom(pcs, sq, p);
      (r < NO_PIECE ==> Has(pcs[r], sq)) && forall j :: p <= j < r ==> !Has(pcs[j], sq)
    decreases 12 - p
  {
    if p < 12 && !Has(pcs[p], sq) {
      PieceFromFirst(pcs, sq, p + 1);
    }
  }

  /** `piece_at`: the lowest piece index whose bitboard holds `sq`, or NO_PIECE. */
  function PieceAt(pcs: seq<Bitboard>, sq: int): (r: int)
    requires |pcs| == 12 && IsSquare(sq)
    ensures 0 <= r <= NO_PIECE
  {
    PieceFrom(pcs, sq, 0)
  }

  /** piece_at finds the first bitboard holding the square, or reports none. */
  lemma PieceAtFirst(pcs: seq<Bitboard>, sq: int)
    requires |pcs| == 12 && IsSquare(sq)
    ensures var r := PieceAt(pcs, sq);
      (r < NO_PIECE ==> Has(pcs[r], sq)) && forall j :: 0 <= j < r ==> !Has(pcs[j], sq)
  {
    PieceFromFirst(pcs, sq, 0);
  }

  /** On disjoint bitboards, piece_at names the one bitboard holding a square. */
  lemma PieceAtHolder(pcs: seq<Bitboard>, sq: int, i: int)
    requires |pcs| == 12 && Disjoint(pcs) && IsSquare(sq) && 0 <= i < 12
    ensures Has(pcs[i], sq) <==> PieceAt(pcs, sq) == i
  {
    PieceAtFirst(pcs, sq);
    var r := PieceAt(pcs, sq);
    if r < NO_PIECE && Held(pcs, i, sq) && Held(pcs, r, sq) {
      assert r == i;
    }
  }

  // ---------------------------------------------------------------------
  // Editing piece bitboards

  /** `pcs[p] &= ~(1ULL << sq)`. */
  function ClearOn(pcs: seq<Bitboard>, p: int, sq: int): (r: seq<Bitboard>)
    requires 0 <= p < |pcs| && IsSquare(sq)
    ensures |r| == |pcs|
  {
    pcs[p := pcs[p] & !Bit(sq)]
  }

  /** `pcs[p] |= 1ULL << sq`. */
  function SetOn(pcs: seq<Bitboard>, p: int, sq: int): (r: seq<Bitboard>)
    requires 0 <= p < |pcs| && IsSquare(sq)
    ensures |r| == |pcs|
  {
    pcs[p := pcs[p] | Bit(sq)]
  }

  /** Piece `p` leaves `f` and lands on `t`. */
  function Relocate(pcs: seq<Bitboard>, p: int, f: int, t: int): (r: seq<Bitboard>)
    requires 0 <= p < |pcs| && IsSquare(f) && IsSquare(t)
    ensures |r| == |pcs|
  {
    SetOn(ClearOn(pcs, p, f), p, t)
  }

  // What clearing or setting one bit does is stated first about a single
  // bitboard value `x`, then lifted to the edited bitboard of the sequence.

  lemma ClearOnValue(b: Bitboard, x: Bitboard, k: int, sq: int)
    requires IsSquare(k) && IsSquare(sq) && x == b & !Bit(k)
    ensures Has(x, sq) <==> Has(b, sq) && sq != k
  {
    ClearHas(b, k, sq);
  }

  lemma SetOnValue(b: Bitboard, x: Bitboard, k: int, sq: int)
    requires IsSquare(k) && IsSquare(sq) && x == b | Bit(k)
    ensures Has(x, sq) <==> Has(b, sq) || sq == k
  {
    SetHas(b, k, sq);
  }

  lemma ClearOnHas(pcs: seq<Bitboard>, p: int, k: int, i: int, sq: int)
    requires 0 <= p < |pcs| && IsSquare(k) && 0 <= i < |pcs| && IsSquare(sq)
    ensures Has(ClearOn(pcs, p, k)[i], sq) <==> Has(pcs[i], sq) && !(i == p && sq == k)
  {
    if i == p {
      ClearOnValue(pcs[p], ClearOn(pcs, p, k)[p], k, sq);
    }
  }

  lemma SetOnHas(pcs: seq<Bitboard>, p: int, k: int, i: int, sq: int)
    requires 0 <= p < |pcs| && IsSquare(k) && 0 <= i < |pcs| && IsSquare(sq)
    ensures Has(SetOn(pcs, p, k)[i], sq) <==> Has(pcs[i], sq) || (i == p && sq == k)
  {
    if i == p {
      SetOnValue(pcs[p], SetOn(pcs, p, k)[p], k, sq);
    }
  }

  // ---------------------------------------------------------------------
  // makeMove

  /** The square of the pawn an en-passant capture by `c` onto `to` removes. */
  function EpVictim(c: Color, to: int): int
  {
    match c
    case White => to - 8
    case Black => to + 8
  }

  /** The castling moves `makeMove` knows: king to g1, c1, g8 or c8. */
  predicate CastleTarget(c: Color, to: int)
  {
    match c
    case White => to == 6 || to == 2
    case Black => to == 62 || to == 58
  }

  /** Where the castling rook starts. */
  function RookFrom(to: int): int
  {
    if to == 6 then 7 else if to == 2 then 0 else if to == 62 then 63 else 56
  }

  /** Where the castling rook lands. */
  function RookTo(to: int): int
  {
    if to == 6 then 5 else if to == 2 then 3 else if to == 62 then 61 else 59
  }

  /** What `makeMove` requires to stay inside its arrays: both squares on the
      board, a piece on the origin, a promotion piece that indexes `pcs`, and
      an en-passant victim square on the board. */
  predicate CanMake(p: Position, m: Move)
  {
    Shaped(p) && IsSquare(m.from) && IsSquare(m.to)
    && PieceAt(p.pcs, m.from) != NO_PIECE
    && (m.promo != 0 ==> IsPiece(m.promo))
    && (IsEnPassant(m) ==> IsSquare(EpVictim(p.stm, m.to)))
  }

  /** The piece `makeMove` records as captured: the enemy pawn for an
      en-passant move, otherwise whatever stands on the target (possibly NO_PIECE). */
  function Captured(p: Position, m: Move): (r: int)
    requires CanMake(p, m)
    ensures 0 <= r <= NO_PIECE
  {
    if IsEnPassant(m) then PieceOf(Other(p.stm), 0) else PieceAt(p.pcs, m.to)
  }

  /** The undo record `makeMove` writes to `hist[ply]`. */
  function Saved(p: Position, m: Move): (s: State)
    requires CanMake(p, m)
  {
    State(m, Captured(p, m), p.ep, p.castle)
  }

  /** Castling rights after a move of `moving` from `from` to `to` that
      captured `captured`, cleared in the order `makeMove` clears them. */
  function RightsAfter(cr: bv8, moving: int, captured: int, from: int, to: int): bv8
  {
    var r1 := if moving == WK then cr & !1 & !2 else cr;
    var r2 := if moving == BK then r1 & !4 & !8 else r1;
    var r3 := if moving == WR && from == 0 then r2 & !2 else r2;
    var r4 := if moving == WR && from == 7 then r3 & !1 else r3;
    var r5 := if moving == BR && from == 56 then r4 & !8 else r4;
    var r6 := if moving == BR && from == 63 then r5 & !4 else r5;
    var r7 := if captured == WR && to == 0 then r6 & !2 else r6;
    var r8 := if captured == WR && to == 7 then r7 & !1 else r7;
    var r9 := if captured == BR && to == 56 then r8 & !8 else r8;
    if captured == BR && to == 63 then r9 & !4 else r9
  }

  /** The en-passant square after a normal move: the skipped square of a
      two-rank pawn push, otherwise none. */
  function EpAfter(moving: int, from: int, to: int): int
  {
    if moving == WP && to - from == 16 then from + 8
    else if moving == BP && from - to == 16 then from - 8
    else -1
  }

  /** The castling rook's move, when the king went to one of the four castling targets. */
  function CastleRook(pcs: seq<Bitboard>, c: Color, to: int): (r: seq<Bitboard>)
    requires |pcs| == 12
    ensures |r| == 12
  {
    if CastleTarget(c, to) then Relocate(pcs, PieceOf(c, 3), RookFrom(to), RookTo(to)) else pcs
  }

  /** The pieces once `makeMove` has removed the captured piece `captured`
      (NO_PIECE for none): from the target square, or for an en-passant
      capture by side `c` from the square behind it. */
  function Removed(pcs: seq<Bitboard>, m: Move, captured: int, c: Color): (r: seq<Bitboard>)
    requires |pcs| == 12 && IsSquare(m.to) && 0 <= captured <= NO_PIECE
    requires IsEnPassant(m) ==> IsSquare(EpVictim(c, m.to))
    ensures |r| == 12
  {
    if captured == NO_PIECE then pcs
    else if IsEnPassant(m) then ClearOn(pcs, captured, EpVictim(c, m.to))
    else ClearOn(pcs, captured, m.to)
  }

  /** The pieces once `makeMove` has moved `moving` of side `c`: a promotion
      puts the promotion piece on the target, a castling king takes its rook
      along, any other piece just moves. */
  function Placed(pcs: seq<Bitboard>, m: Move, moving: int, c: Color): (r: seq<Bitboard>)
    requires |pcs| == 12 && IsSquare(m.from) && IsSquare(m.to) && IsPiece(moving)
    requires m.promo != 0 ==> IsPiece(m.promo)
    ensures |r| == 12
  {
    if m.promo != 0 then SetOn(ClearOn(pcs, moving, m.from), m.promo, m.to)
    else if IsCastle(m) then CastleRook(Relocate(pcs, moving, m.from, m.to), c, m.to)
    else Relocate(pcs, moving, m.from, m.to)
  }

  /** The en-passant square `makeMove` leaves: only a plain move can set one. */
  function EpOf(m: Move, moving: int): int
  {
    if m.promo != 0 || IsCastle(m) then -1 else EpAfter(moving, m.from, m.to)
  }

  /** The pieces after the capture is removed. */
  function AfterCapture(p: Position, m: Move): (r: seq<Bitboard>)
    requires CanMake(p, m)
    ensures |r| == 12
  {
    Removed(p.pcs, m, Captured(p, m), p.stm)
  }

  /** The piece bitboards after `makeMove`. */
  function MovedPieces(p: Position, m: Move): (r: seq<Bitboard>)
    requires CanMake(p, m)
    ensures |r| == 12
  {
    Placed(AfterCapture(p, m), m, PieceAt(p.pcs, m.from), p.stm)
  }

  /** `makeMove`: the position after `m`. */
  function Make(p: Position, m: Move): (q: Position)
    requires CanMake(p, m)
    ensures Shaped(q) && q.stm == Other(p.stm)
  {
    MakeAfter(p, m, 1)
  }

  /** `Make` behind `n` trivial steps, so that its body is unfolded only where a proof asks for it (`MakeIs`). */
  function MakeAfter(p: Position, m: Move, n: nat): (q: Position)
    requires CanMake(p, m)
    ensures Shaped(q) && q.stm == Other(p.stm)
    decreases n, p
  {
    if n == 0 then
      var moving := PieceAt(p.pcs, m.from);
      Position(MovedPieces(p, m), EpOf(m, moving), RightsAfter(p.castle, moving, Captured(p, m), m.from, m.to), Other(p.stm))
    else MakeAfter(p, m, n - 1)
  }

  /** The position after `m`: the pieces moved, the en-passant square and castling rights updated, the other side to move. */
  lemma MakeIs(p: Position, m: Move)
    requires CanMake(p, m)
    ensures Make(p, m) == Position(MovedPieces(p, m), EpOf(m, PieceAt(p.pcs, m.from)), RightsAfter(p.castle, PieceAt(p.pcs, m.from), Captured(p, m), m.from, m.to), Other(p.stm))
  {
    assert MakeAfter(p, m, 1) == MakeAfter(p, m, 0);
  }

  // ---------------------------------------------------------------------
  // unmakeMove

  /** What `unmakeMove` requires to stay inside its arrays. */
  predicate CanUndo(p: Position, m: Move, s: State)
  {
    Shaped(p) && IsSquare(m.from) && IsSquare(m.to)
    && -1 <= s.captured <= NO_PIECE
    && (m.promo != 0 ==> IsPiece(m.promo))
    && (m.promo == 0 ==> PieceAt(p.pcs, m.to) != NO_PIECE)
    && (m.promo == 0 && IsEnPassant(m) && 0 <= s.captured < NO_PIECE ==> IsSquare(EpVictim(Other(p.stm), m.to)))
  }

  /** The castling rook's move back. */
  function CastleRookBack(pcs: seq<Bitboard>, c: Color, to: int): (r: seq<Bitboard>)
    requires |pcs| == 12
    ensures |r| == 12
  {
    if CastleTarget(c, to) then Relocate(pcs, PieceOf(c, 3), RookTo(to), RookFrom(to)) else pcs
  }

  /** The promotion rollback of `unmakeMove`: the promotion piece leaves the
      target, `pawn` returns to the origin and a recorded capture (`cap`
      neither -1 nor NO_PIECE) returns to the target. */
  function PromotionBack(pcs: seq<Bitboard>, m: Move, pawn: int, cap: int): (r: seq<Bitboard>)
    requires |pcs| == 12 && IsSquare(m.from) && IsSquare(m.to) && IsPiece(m.promo) && IsPiece(pawn)
    ensures |r| == 12
  {
    var pcs1 := SetOn(ClearOn(pcs, m.promo, m.to), pawn, m.from);
    if 0 <= cap < NO_PIECE then SetOn(pcs1, cap, m.to) else pcs1
  }

  /** `unmakeMove` moving the piece on the target back to the origin, and
      for castling by side `c` the rook back to its corner. */
  function MovedBack(pcs: seq<Bitboard>, m: Move, c: Color): (r: seq<Bitboard>)
    requires |pcs| == 12 && IsSquare(m.from) && IsSquare(m.to) && PieceAt(pcs, m.to) != NO_PIECE
    ensures |r| == 12
  {
    var pcs1 := Relocate(pcs, PieceAt(pcs, m.to), m.to, m.from);
    if IsCastle(m) then CastleRookBack(pcs1, c, m.to) else pcs1
  }

  /** `unmakeMove` putting a recorded capture back: on the target, or for an
      en-passant capture by side `c` on the square behind it. */
  function PutBack(pcs: seq<Bitboard>, m: Move, cap: int, c: Color): (r: seq<Bitboard>)
    requires |pcs| == 12 && IsSquare(m.to) && -1 <= cap <= NO_PIECE
    requires IsEnPassant(m) && 0 <= cap < NO_PIECE ==> IsSquare(EpVictim(c, m.to))
    ensures |r| == 12
  {
    if !(0 <= cap < NO_PIECE) then pcs
    else if IsEnPassant(m) then SetOn(pcs, cap, EpVictim(c, m.to))
    else SetOn(pcs, cap, m.to)
  }

  /** The piece bitboards after `unmakeMove`, with the pawn that a promotion
      rollback puts back on the origin square given as `pawn`. */
  function RestoredPieces(p: Position, m: Move, s: State, pawn: int): (r: seq<Bitboard>)
    requires CanUndo(p, m, s) && IsPiece(pawn)
    ensures |r| == 12
  {
    var mover := Other(p.stm);
    if m.promo != 0 then PromotionBack(p.pcs, m, pawn, s.captured)
    else PutBack(MovedBack(p.pcs, m, mover), m, s.captured, mover)
  }

  /** `unmakeMove` with the pawn that a promotion rollback restores given as `pawn`:
      the bitboards are restored, and so are the en-passant square and the
      castling rights saved in `s`; the mover is to move again. */
  function UndoWith(p: Position, m: Move, s: State, pawn: int): (q: Position)
    requires CanUndo(p, m, s) && IsPiece(pawn)
    ensures Shaped(q) && q.stm == Other(p.stm) && q.ep == s.prevEp && q.castle == s.prevCastle
  {
    Position(RestoredPieces(p, m, s, pawn), s.prevEp, s.prevCastle, Other(p.stm))
  }

  /** `unmakeMove` as intended: a promotion rollback restores the mover's pawn. */
  function Undo(p: Position, m: Move, s: State): (q: Position)
    requires CanUndo(p, m, s)
    ensures Shaped(q) && q.stm == Other(p.stm) && q.ep == s.prevEp && q.castle == s.prevCastle
  {
    UndoWith(p, m, s, PieceOf(Other(p.stm), 0))
  }

  /** `unmakeMove` as written: after `stm` is flipped back to the mover, the
      promotion rollback picks `(stm == WHITE) ? BP : WP`, the opponent's pawn. */
  function UndoAsWritten(p: Position, m: Move, s: State): (q: Position)
    requires CanUndo(p, m, s)
    ensures Shaped(q) && q.stm == Other(p.stm)
  {
    var stm := Other(p.stm);
    UndoWith(p, m, s, if stm == White then BP else WP)
  }

  // ---------------------------------------------------------------------
  // What a move does to the board, square by square

  /** A move `makeMove` and `unmakeMove` handle consistently: a piece of the
      side to move leaves `from` for a different square that holds no piece
      of its own side; an en-passant capture goes to an empty square with the
      enemy pawn behind it; a castling king goes to an empty square and its
      rook stands on the corner with its landing square empty; a promotion
      turns the mover's pawn into one of its knight, bishop, rook or queen. */
  ghost predicate Playable(p: Position, m: Move)
  {
    Valid(p) && CanMake(p, m) && MoveFits(p, m)
  }

  predicate MoveFits(p: Position, m: Move)
    requires CanMake(p, m)
  {
    m.from != m.to
    && ColorOf(PieceAt(p.pcs, m.from)) == p.stm
    && (PieceAt(p.pcs, m.to) == NO_PIECE || ColorOf(PieceAt(p.pcs, m.to)) != p.stm)
    && (IsEnPassant(m) ==>
          m.promo == 0 && !IsCastle(m) && PieceAt(p.pcs, m.to) == NO_PIECE
          && PieceAt(p.pcs, EpVictim(p.stm, m.to)) == PieceOf(Other(p.stm), 0))
    && (m.promo != 0 ==>
          PieceAt(p.pcs, m.from) == PieceOf(p.stm, 0)
          && ColorOf(m.promo) == p.stm && 1 <= m.promo % 6 <= 4)
    && (m.promo == 0 && IsCastle(m) ==>
          PieceAt(p.pcs, m.from) == PieceOf(p.stm, 5) && PieceAt(p.pcs, m.to) == NO_PIECE
          && (CastleTarget(p.stm, m.to) ==>
                PieceAt(p.pcs, RookFrom(m.to)) == PieceOf(p.stm, 3)
                && PieceAt(p.pcs, RookTo(m.to)) == NO_PIECE))
  }

  /** The piece on `sq` after the move, as a chess player would place it. */
  function After(p: Position, m: Move, sq: int): int
    requires CanMake(p, m) && IsSquare(sq)
  {
    var castling := m.promo == 0 && IsCastle(m) && CastleTarget(p.stm, m.to);
    if sq == m.to then (if m.promo != 0 then m.promo else PieceAt(p.pcs, m.from))
    else if sq == m.from then NO_PIECE
    else if IsEnPassant(m) && sq == EpVictim(p.stm, m.to) then NO_PIECE
    else if castling && sq == RookFrom(m.to) then NO_PIECE
    else if castling && sq == RookTo(m.to) then PieceOf(p.stm, 3)
    else PieceAt(p.pcs, sq)
  }

  lemma HolderOf(p: Position, i: int, sq: int)
    requires Valid(p) && 0 <= i < 12 && IsSquare(sq)
    ensures Has(p.pcs[i], sq) <==> PieceAt(p.pcs, sq) == i
  {
    PieceAtHolder(p.pcs, sq, i);
  }

  lemma AfterCaptureHas(p: Position, m: Move, i: int, sq: int)
    requires Playable(p, m) && 0 <= i < 12 && IsSquare(sq)
    ensures Has(AfterCapture(p, m)[i], sq) <==>
      PieceAt(p.pcs, sq) == i && sq != m.to && !(IsEnPassant(m) && sq == EpVictim(p.stm, m.to))
  {
    HolderOf(p, i, sq);
    var c := Captured(p, m);
    if c != NO_PIECE {
      if IsEnPassant(m) {
        ClearOnHas(p.pcs, c, EpVictim(p.stm, m.to), i, sq);
      } else {
        ClearOnHas(p.pcs, c, m.to, i, sq);
      }
    }
  }

  lemma MakeHasNormal(p: Position, m: Move, i: int, sq: int)
    requires Playable(p, m) && m.promo == 0 && !IsCastle(m) && 0 <= i < 12 && IsSquare(sq)
    ensures Has(MovedPieces(p, m)[i], sq) <==> After(p, m, sq) == i
  {
    var a := AfterCapture(p, m);
    var mover := PieceAt(p.pcs, m.from);
    AfterCaptureHas(p, m, i, sq);
    ClearOnHas(a, mover, m.from, i, sq);
    SetOnHas(ClearOn(a, mover, m.from), mover, m.to, i, sq);
  }

  lemma MakeHasPromotion(p: Position, m: Move, i: int, sq: int)
    requires Playable(p, m) && m.promo != 0 && 0 <= i < 12 && IsSquare(sq)
    ensures Has(MovedPieces(p, m)[i], sq) <==> After(p, m, sq) == i
  {
    var a := AfterCapture(p, m);
    var mover := PieceAt(p.pcs, m.from);
    AfterCaptureHas(p, m, i, sq);
    ClearOnHas(a, mover, m.from, i, sq);
    SetOnHas(ClearOn(a, mover, m.from), m.promo, m.to, i, sq);
  }

  lemma CastleRookHas(pcs: seq<Bitboard>, c: Color, to: int, i: int, sq: int)
    requires |pcs| == 12 && 0 <= i < 12 && IsSquare(sq)
    ensures Has(CastleRook(pcs, c, to)[i], sq) <==>
      if CastleTarget(c, to) && i == PieceOf(c, 3) then
        (Has(pcs[i], sq) && sq != RookFrom(to)) || sq == RookTo(to)
      else Has(pcs[i], sq)
  {
    if CastleTarget(c, to) {
      var rook := PieceOf(c, 3);
      ClearOnHas(pcs, rook, RookFrom(to), i, sq);
      SetOnHas(ClearOn(pcs, rook, RookFrom(to)), rook, RookTo(to), i, sq);
    }
  }

  lemma RelocateHas(pcs: seq<Bitboard>, p: int, f: int, t: int, i: int, sq: int)
    requires 0 <= p < |pcs| && IsSquare(f) && IsSquare(t) && 0 <= i < |pcs| && IsSquare(sq)
    ensures Has(Relocate(pcs, p, f, t)[i], sq) <==>
      if i == p then (Has(pcs[i], sq) && sq != f) || sq == t else Has(pcs[i], sq)
  {
    ClearOnHas(pcs, p, f, i, sq);
    SetOnHas(ClearOn(pcs, p, f), p, t, i, sq);
  }

  /** The king's part of castling: it leaves `from` for the empty `to`. */
  lemma CastleKingHas(p: Position, m: Move, i: int, sq: int)
    requires Playable(p, m) && m.promo == 0 && IsCastle(m) && 0 <= i < 12 && IsSquare(sq)
    ensures Has(Relocate(AfterCapture(p, m), PieceAt(p.pcs, m.from), m.from, m.to)[i], sq)
      <==> if sq == m.to then i == PieceAt(p.pcs, m.from) else sq != m.from && PieceAt(p.pcs, sq) == i
  {
    AfterCaptureHas(p, m, i, sq);
    RelocateHas(AfterCapture(p, m), PieceAt(p.pcs, m.from), m.from, m.to, i, sq);
  }

  lemma MakeHasCastle(p: Position, m: Move, i: int, sq: int)
    requires Playable(p, m) && m.promo == 0 && IsCastle(m) && 0 <= i < 12 && IsSquare(sq)
    ensures Has(MovedPieces(p, m)[i], sq) <==> After(p, m, sq) == i
  {
    var k := Relocate(AfterCapture(p, m), PieceAt(p.pcs, m.from), m.from, m.to);
    CastleKingHas(p, m, i, sq);
    CastleRookHas(k, p.stm, m.to, i, sq);
    if CastleTarget(p.stm, m.to) {
      CastleWithRook(p, m, i, sq, Has(k[i], sq));
    }
  }

  /** The case analysis behind MakeHasCastle, over booleans only. */
  lemma CastleWithRook(p: Position, m: Move, i: int, sq: int, hk: bool)
    requires Playable(p, m) && m.promo == 0 && IsCastle(m) && CastleTarget(p.stm, m.to)
    requires 0 <= i < 12 && IsSquare(sq)
    requires hk <==> if sq == m.to then i == PieceAt(p.pcs, m.from) else sq != m.from && PieceAt(p.pcs, sq) == i
    ensures (if i == PieceOf(p.stm, 3) then (hk && sq != RookFrom(m.to)) || sq == RookTo(m.to) else hk)
      <==> After(p, m, sq) == i
  {
  }

  /** After a playable move, a bitboard holds a square exactly when the
      piece a player would put there is that bitboard's piece. */
  lemma MakeHas(p: Position, m: Move, i: int, sq: int)
    requires Playable(p, m) && 0 <= i < 12 && IsSquare(sq)
    ensures Has(MovedPieces(p, m)[i], sq) <==> After(p, m, sq) == i
  {
    if m.promo != 0 {
      MakeHasPromotion(p, m, i, sq);
    } else if IsCastle(m) {
      MakeHasCastle(p, m, i, sq);
    } else {
      MakeHasNormal(p, m, i, sq);
    }
  }

  lemma MakeDisjoint(p: Position, m: Move)
    requires Playable(p, m)
    ensures Disjoint(MovedPieces(p, m))
  {
    var q := MovedPieces(p, m);
    forall i, j, sq | 0 <= i < j < 12 && IsSquare(sq) && Held(q, i, sq)
      ensures !Held(q, j, sq)
    {
      MakeHas(p, m, i, sq);
      MakeHas(p, m, j, sq);
    }
  }

  /** A playable move keeps the position valid: no square doubly occupied
      and an en-passant square on the board or none. */
  lemma MakeValid(p: Position, m: Move)
    requires Playable(p, m)
    ensures Valid(Make(p, m))
  {
    MakeIs(p, m);
    MakeDisjoint(p, m);
  }

  /** After a playable move, piece_at reports what a player would see. */
  lemma MakePieceAt(p: Position, m: Move, sq: int)
    requires Playable(p, m) && IsSquare(sq)
    ensures PieceAt(MovedPieces(p, m), sq) == After(p, m, sq)
  {
    var q := MovedPieces(p, m);
    var r := PieceAt(q, sq);
    MakeDisjoint(p, m);
    if r < NO_PIECE {
      PieceAtHolder(q, sq, r);
      MakeHas(p, m, r, sq);
    } else {
      AfterRange(p, m, sq);
      var a := After(p, m, sq);
      if a < NO_PIECE {
        PieceAtHolder(q, sq, a);
        MakeHas(p, m, a, sq);
      }
    }
  }

  lemma AfterRange(p: Position, m: Move, sq: int)
    requires Playable(p, m) && IsSquare(sq)
    ensures 0 <= After(p, m, sq) <= NO_PIECE
  {
  }

  // ---------------------------------------------------------------------
  // unmakeMove undoes makeMove

  /** The record `makeMove` saves lets `unmakeMove` run on the position it made. */
  lemma MakeCanUndo(p: Position, m: Move)
    requires Playable(p, m)
    ensures CanUndo(Make(p, m), m, Saved(p, m))
  {
    MakeIs(p, m);
    MakePieceAt(p, m, m.to);
  }

  lemma UndoHasNormal(p: Position, m: Move, i: int, sq: int)
    requires Playable(p, m) && m.promo == 0 && !IsCastle(m) && 0 <= i < 12 && IsSquare(sq)
    requires CanUndo(Make(p, m), m, Saved(p, m))
    ensures Has(RestoredPieces(Make(p, m), m, Saved(p, m), PieceOf(p.stm, 0))[i], sq)
      <==> PieceAt(p.pcs, sq) == i
  {
    MakeIs(p, m);
    var q := MovedPieces(p, m);
    var mover := PieceAt(p.pcs, m.from);
    var c := Captured(p, m);
    MakePieceAt(p, m, m.to);
    MakeHas(p, m, i, sq);
    RelocateHas(q, mover, m.to, m.from, i, sq);
    if 0 <= c < NO_PIECE {
      var x := if IsEnPassant(m) then EpVictim(p.stm, m.to) else m.to;
      SetOnHas(Relocate(q, mover, m.to, m.from), c, x, i, sq);
    }
  }

  lemma UndoHasPromotion(p: Position, m: Move, i: int, sq: int)
    requires Playable(p, m) && m.promo != 0 && 0 <= i < 12 && IsSquare(sq)
    requires CanUndo(Make(p, m), m, Saved(p, m))
    ensures Has(RestoredPieces(Make(p, m), m, Saved(p, m), PieceOf(p.stm, 0))[i], sq)
      <==> PieceAt(p.pcs, sq) == i
  {
    MakeIs(p, m);
    var q := MovedPieces(p, m);
    var pawn := PieceOf(p.stm, 0);
    var c := Captured(p, m);
    MakeHas(p, m, i, sq);
    ClearOnHas(q, m.promo, m.to, i, sq);
    var r := ClearOn(q, m.promo, m.to);
    SetOnHas(r, pawn, m.from, i, sq);
    if 0 <= c < NO_PIECE {
      SetOnHas(SetOn(r, pawn, m.from), c, m.to, i, sq);
    }
  }

  lemma UndoHasCastle(p: Position, m: Move, i: int, sq: int)
    requires Playable(p, m) && m.promo == 0 && IsCastle(m) && 0 <= i < 12 && IsSquare(sq)
    requires CanUndo(Make(p, m), m, Saved(p, m))
    ensures Has(RestoredPieces(Make(p, m), m, Saved(p, m), PieceOf(p.stm, 0))[i], sq)
      <==> PieceAt(p.pcs, sq) == i
  {
    MakeIs(p, m);
    var q := MovedPieces(p, m);
    var king := PieceAt(p.pcs, m.from);
    MakePieceAt(p, m, m.to);
    MakeHas(p, m, i, sq);
    RelocateHas(q, king, m.to, m.from, i, sq);
    var r := Relocate(q, king, m.to, m.from);
    CastleRookBackHas(r, p.stm, m.to, i, sq);
  }

  lemma CastleRookBackHas(pcs: seq<Bitboard>, c: Color, to: int, i: int, sq: int)
    requires |pcs| == 12 && 0 <= i < 12 && IsSquare(sq)
    ensures Has(CastleRookBack(pcs, c, to)[i], sq) <==>
      if CastleTarget(c, to) && i == PieceOf(c, 3) then
        (Has(pcs[i], sq) && sq != RookTo(to)) || sq == RookFrom(to)
      else Has(pcs[i], sq)
  {
    if CastleTarget(c, to) {
      RelocateHas(pcs, PieceOf(c, 3), RookTo(to), RookFrom(to), i, sq);
    }
  }

  lemma UndoHas(p: Position, m: Move, i: int, sq: int)
    requires Playable(p, m) && 0 <= i < 12 && IsSquare(sq)
    requires CanUndo(Make(p, m), m, Saved(p, m))
    ensures Has(Undo(Make(p, m), m, Saved(p, m)).pcs[i], sq) <==> Has(p.pcs[i], sq)
  {
    HolderOf(p, i, sq);
    if m.promo != 0 {
      UndoHasPromotion(p, m, i, sq);
    } else if IsCastle(m) {
      UndoHasCastle(p, m, i, sq);
    } else {
      UndoHasNormal(p, m, i, sq);
    }
  }

  /** `unmakeMove` with the record `makeMove` saved gives back the position
      the move was made in: every bitboard, the en-passant square, the
      castling rights and the side to move. */
  lemma RoundTrip(p: Position, m: Move)
    requires Playable(p, m)
    ensures CanUndo(Make(p, m), m, Saved(p, m)) && Undo(Make(p, m), m, Saved(p, m)) == p
  {
    MakeCanUndo(p, m);
    var u := Undo(Make(p, m), m, Saved(p, m));
    forall i | 0 <= i < 12
      ensures u.pcs[i] == p.pcs[i]
    {
      forall sq | IsSquare(sq)
        ensures Has(u.pcs[i], sq) <==> Has(p.pcs[i], sq)
      {
        UndoHas(p, m, i, sq);
      }
      SameSquares(u.pcs[i], p.pcs[i]);
    }
  }

  /** For a move that is not a promotion, which covers every move the
      generator emits, `unmakeMove` as written gives back the position the
      move was made in. */
  lemma RoundTripAsWritten(p: Position, m: Move)
    requires Playable(p, m) && m.promo == 0
    ensures CanUndo(Make(p, m), m, Saved(p, m)) && UndoAsWritten(Make(p, m), m, Saved(p, m)) == p
  {
    RoundTrip(p, m);
  }

  /** The promotion rollback as written puts the opponent's pawn on the origin
      square, where the position the move was made in has the mover's pawn:
      the round trip fails for every playable promotion. */
  lemma PromotionUndoAsWrittenDiffers(p: Position, m: Move)
    requires Playable(p, m) && m.promo != 0
    ensures CanUndo(Make(p, m), m, Saved(p, m))
    ensures var u := UndoAsWritten(Make(p, m), m, Saved(p, m));
      Has(u.pcs[PieceOf(Other(p.stm), 0)], m.from) && u != p
  {
    MakeCanUndo(p, m);
    var q := MovedPieces(p, m);
    var opp := PieceOf(Other(p.stm), 0);
    var c := Captured(p, m);
    var r := SetOn(ClearOn(q, m.promo, m.to), opp, m.from);
    SetOnHas(ClearOn(q, m.promo, m.to), opp, m.from, opp, m.from);
    if 0 <= c < NO_PIECE {
      SetOnHas(r, c, m.to, opp, m.from);
    }
    HolderOf(p, opp, m.from);
  }

  // ---------------------------------------------------------------------
  // Castling rights and the en-passant square after a move

  /** Castling right `k`: 0 White king side, 1 White queen side, 2 Black
      king side, 3 Black queen side. */
  function Right(k: int): bv8
    requires 0 <= k < 4
  {
    if k == 0 then 1 else if k == 1 then 2 else if k == 2 then 4 else 8
  }

  /** The corner of the rook that right `k` castles with. */
  function Corner(k: int): int
    requires 0 <= k < 4
  {
    if k == 0 then 7 else if k == 1 then 0 else if k == 2 then 63 else 56
  }

  /** Right `k` is lost when its king moves, when its rook leaves its corner,
      or when a rook of that side is captured on that corner. */
  predicate RightLost(k: int, moving: int, captured: int, from: int, to: int)
    requires 0 <= k < 4
  {
    var c := if k < 2 then White else Black;
    moving == PieceOf(c, 5)
    || (moving == PieceOf(c, 3) && from == Corner(k))
    || (captured == PieceOf(c, 3) && to == Corner(k))
  }

  /** makeMove keeps exactly the rights that were held and not lost. */
  lemma RightsAfterBits(cr: bv8, moving: int, captured: int, from: int, to: int, k: int)
    requires 0 <= k < 4
    ensures RightsAfter(cr, moving, captured, from, to) & Right(k) != 0
      <==> cr & Right(k) != 0 && !RightLost(k, moving, captured, from, to)
  {
  }

  /** makeMove never grants a castling right and leaves the four unused
      high bits alone. */
  lemma RightsNeverGained(cr: bv8, moving: int, captured: int, from: int, to: int)
    ensures RightsAfter(cr, moving, captured, from, to) & !cr == 0
    ensures RightsAfter(cr, moving, captured, from, to) & 0xF0 == cr & 0xF0
  {
  }

  /** The en-passant square after makeMove is set only by a two-rank pawn
      push, and it is the square the pawn passed over. */
  lemma MakeEp(p: Position, m: Move)
    requires CanMake(p, m)
    ensures var e := Make(p, m).ep; var mover := PieceAt(p.pcs, m.from);
      (e != -1 <==> m.promo == 0 && !IsCastle(m)
                    && ((mover == WP && m.to == m.from + 16) || (mover == BP && m.to == m.from - 16)))
      && (e != -1 ==> 2 * e == m.from + m.to)
  {
    MakeIs(p, m);
  }

  /** A position whose en-passant square, when there is one, is empty and
      has the pawn that just made the two-rank push behind it. */
  ghost predicate Sound(p: Position)
  {
    Valid(p)
    && (p.ep != -1 ==>
          IsSquare(EpVictim(p.stm, p.ep))
          && PieceAt(p.pcs, p.ep) == NO_PIECE
          && PieceAt(p.pcs, EpVictim(p.stm, p.ep)) == PieceOf(Other(p.stm), 0))
  }

  /** A two-rank pawn push passes over an empty square. */
  predicate JumpClear(p: Position, m: Move)
    requires CanMake(p, m)
  {
    var e := EpAfter(PieceAt(p.pcs, m.from), m.from, m.to);
    m.promo == 0 && !IsCastle(m) && e != -1 ==> IsSquare(e) && PieceAt(p.pcs, e) == NO_PIECE
  }

  /** A playable move that jumps only over an empty square keeps the
      position sound. */
  lemma MakeSound(p: Position, m: Move)
    requires Playable(p, m) && JumpClear(p, m)
    ensures Sound(Make(p, m))
  {
    MakeIs(p, m);
    MakeValid(p, m);
    var q := Make(p, m);
    if q.ep != -1 {
      MakeEpVictim(p, m);
      MakePieceAt(p, m, q.ep);
      MakePieceAt(p, m, m.to);
    }
  }

  /** The pawn that jumped stands behind the square it passed over. */
  lemma MakeEpVictim(p: Position, m: Move)
    requires Playable(p, m) && JumpClear(p, m) && Make(p, m).ep != -1
    ensures var q := Make(p, m);
      IsSquare(q.ep) && EpVictim(q.stm, q.ep) == m.to && q.ep != m.from && q.ep != m.to
      && After(p, m, q.ep) == NO_PIECE && After(p, m, m.to) == PieceOf(p.stm, 0)
  {
    MakeIs(p, m);
  }

  // ---------------------------------------------------------------------
  // The start position

  /** The piece bitboards `loadFEN("startpos")` sets, by piece index: pawns
      on the second and seventh ranks, rooks, knights, bishops, queens and
      kings on their home squares of the first and eighth ranks. */
  const StartPieces: seq<Bitboard> := [
    0x0000_0000_0000_FF00, 0x0000_0000_0000_0042, 0x0000_0000_0000_0024,
    0x0000_0000_0000_0081, 0x0000_0000_0000_0008, 0x0000_0000_0000_0010,
    0x00FF_0000_0000_0000, 0x4200_0000_0000_0000, 0x2400_0000_0000_0000,
    0x8100_0000_0000_0000, 0x0800_0000_0000_0000, 0x1000_0000_0000_0000]

  /** The position `loadFEN("startpos")` sets up: all four castling rights,
      no en-passant square, White to move. */
  const StartPosition: Position := Position(StartPieces, -1, 0xF, White)

  lemma StartPairs()
    ensures forall i, j :: 0 <= i < j < 12 ==> StartPieces[i] & StartPieces[j] == 0
  {
  }

  /** No two start bitboards share a square. */
  lemma StartDisjoint()
    ensures |StartPieces| == 12 && Disjoint(StartPieces)
  {
    StartPairs();
    forall i, j, sq | 0 <= i < j < 12 && IsSquare(sq) && Held(StartPieces, i, sq)
      ensures !Held(StartPieces, j, sq)
    {
      AndAt(StartPieces[i], StartPieces[j], Index(sq));
      ZeroAt(Index(sq));
    }
  }

  /** The start position is sound, each side has its king on the e-file
      home square (e1 = 4, e8 = 60), and the occupancy is the first two and
      the last two ranks. */
  lemma StartSound()
    ensures Sound(StartPosition)
    ensures StartPieces[WK] == Bit(4) && StartPieces[BK] == Bit(60)
    ensures OccupancyOf(StartPieces, [0xFFFF, 0xFFFF_0000_0000_0000], 0xFFFF_0000_0000_FFFF)
  {
    StartDisjoint();
    IndexValue(4);
    IndexValue(60);
    SideOrSquares(StartPieces, White, 0xFFFF);
    SideOrSquares(StartPieces, Black, 0xFFFF_0000_0000_0000);
  }

  /** A square is in `occAll` exactly when some piece bitboard holds it. */
  lemma OccAllHas(pcs: seq<Bitboard>, occ: seq<Bitboard>, occAll: Bitboard, sq: int)
    requires OccupancyOf(pcs, occ, occAll) && IsSquare(sq)
    ensures Has(occAll, sq) <==> PieceAt(pcs, sq) != NO_PIECE
  {
    OrHas(occ[0], occ[1], occAll, sq);
    OccSquare(pcs, occ[0], occ[1], sq);
  }

  lemma OccSquare(pcs: seq<Bitboard>, w: Bitboard, b: Bitboard, sq: int)
    requires |pcs| == 12 && IsSquare(sq)
    requires Squares(w) == SideSquares(pcs, White) && Squares(b) == SideSquares(pcs, Black)
    ensures Has(w, sq) || Has(b, sq) <==> PieceAt(pcs, sq) != NO_PIECE
  {
    assert Has(w, sq) <==> sq in SideSquares(pcs, White);
    assert Has(b, sq) <==> sq in SideSquares(pcs, Black);
    SideSquaresHas(pcs, White, sq);
    SideSquaresHas(pcs, Black, sq);
    PieceAtFirst(pcs, sq);
  }

  /** A square is in `occ[c]` exactly when a piece of colour `c` stands there
      (for disjoint pieces, the one `piece_at` names). */
  lemma OccSideHas(pcs: seq<Bitboard>, occ: seq<Bitboard>, occAll: Bitboard, c: Color, sq: int)
    requires OccupancyOf(pcs, occ, occAll) && Disjoint(pcs) && IsSquare(sq)
    ensures var k := if c == White then 0 else 1;
      Has(occ[k], sq) <==> PieceAt(pcs, sq) != NO_PIECE && ColorOf(PieceAt(pcs, sq)) == c
  {
    SideSquaresHas(pcs, c, sq);
    var r := PieceAt(pcs, sq);
    if r != NO_PIECE {
      PieceAtHolder(pcs, sq, r);
    }
    forall i | 0 <= i < 12 && Has(pcs[i], sq)
      ensures r == i
    {
      PieceAtHolder(pcs, sq, i);
    }
  }
}
