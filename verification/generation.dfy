/**
 * What `generateMoves` of src/movegen.cpp produces, as functions of the
 * position and its occupancy: the pseudo-legal moves section by section in
 * the order the source pushes them, the legality filter over them, and the
 * `perft` count built on the result.  The loops of module MoveGen are
 * proved to compute these functions; the lemmas here say what the moves are.
 */
module Generation {
  import opened Bits
  import opened Types
  import opened Positions
  import opened Attacks

  /** The flags of an en-passant capture, `MF_ENPASSANT | MF_CAPTURE`. */
  const EP_FLAGS: bv8 := MF_ENPASSANT | MF_CAPTURE

  // ---------------------------------------------------------------------
  // Move lists built from square lists

  /** The moves `pushMovesFromMask` pushes for `mask`: from `from` to each
      of its squares, lowest first, with no promotion and no flags. */
  function Targets(from: int, mask: Bitboard): seq<Move>
    decreases |Squares(mask)|
  {
    if mask == 0 then []
    else
      ClearLowest(mask);
      [Move(from, Lsb(mask), 0, 0)] + Targets(from, mask & (mask - 1))
  }

  /** The pawn moves pushed for the target squares of `mask`, lowest first:
      each from `d` squares back, with no promotion and no flags. */
  function Pushes(mask: Bitboard, d: int): seq<Move>
    decreases |Squares(mask)|
  {
    if mask == 0 then []
    else
      ClearLowest(mask);
      [Move(Lsb(mask) - d, Lsb(mask), 0, 0)] + Pushes(mask & (mask - 1), d)
  }

  lemma {:induction false} TargetsHas(from: int, mask: Bitboard, m: Move)
    ensures m in Targets(from, mask) <==>
      m.from == from && IsSquare(m.to) && Has(mask, m.to) && m.promo == 0 && m.flags == 0
    decreases |Squares(mask)|
  {
    if mask == 0 {
      ZeroSquares();
      assert m.to !in Squares(0);
    } else {
      ClearLowest(mask);
      TargetsHas(from, mask & (mask - 1), m);
      assert m.to in Squares(mask) <==> m.to == Lsb(mask) || m.to in Squares(mask & (mask - 1));
    }
  }

  lemma {:induction false} PushesHas(mask: Bitboard, d: int, m: Move)
    ensures m in Pushes(mask, d) <==>
      IsSquare(m.to) && Has(mask, m.to) && m.from == m.to - d && m.promo == 0 && m.flags == 0
    decreases |Squares(mask)|
  {
    if mask == 0 {
      ZeroSquares();
      assert m.to !in Squares(0);
    } else {
      ClearLowest(mask);
      PushesHas(mask & (mask - 1), d, m);
      assert m.to in Squares(mask) <==> m.to == Lsb(mask) || m.to in Squares(mask & (mask - 1));
    }
  }

  // ---------------------------------------------------------------------
  // Pawns

  /** The direction side `c`'s pawns move in: +1 for White, -1 for Black. */
  function Forward(c: Color): int { if c == White then 1 else -1 }

  /** `singles`: the empty squares one rank ahead of a pawn. */
  function Singles(c: Color, pawns: Bitboard, all: Bitboard): Bitboard
  {
    if c == White then (pawns << 8) & !all else (pawns >> 8) & !all
  }

  /** `doubles`: the empty squares two ranks ahead of a pawn on its home
      rank, reached through an empty single-push square. */
  function Doubles(c: Color, pawns: Bitboard, all: Bitboard): Bitboard
  {
    if c == White then ((Singles(c, pawns, all) & (RANK_2 << 8)) << 8) & !all
    else ((Singles(c, pawns, all) & (RANK_7 >> 8)) >> 8) & !all
  }

  /** `capNW` for White and `capSE` for Black: enemy squares a pawn off the
      a-file (h-file for Black) captures onto, seven squares ahead. */
  function Captures7(c: Color, pawns: Bitboard, their: Bitboard): Bitboard
  {
    if c == White then ((pawns & !FILE_A) << 7) & their else ((pawns & !FILE_H) >> 7) & their
  }

  /** `capNE` for White and `capSW` for Black: enemy squares a pawn off the
      h-file (a-file for Black) captures onto, nine squares ahead. */
  function Captures9(c: Color, pawns: Bitboard, their: Bitboard): Bitboard
  {
    if c == White then ((pawns & !FILE_H) << 9) & their else ((pawns & !FILE_A) >> 9) & their
  }

  /** The pawn section: single pushes, double pushes, then the two capture
      directions, each in ascending target order. */
  function PawnMoves(c: Color, pawns: Bitboard, all: Bitboard, their: Bitboard): seq<Move>
  {
    var f := Forward(c);
    Pushes(Singles(c, pawns, all), 8 * f)
    + Pushes(Doubles(c, pawns, all), 16 * f)
    + Pushes(Captures7(c, pawns, their), 7 * f)
    + Pushes(Captures9(c, pawns, their), 9 * f)
  }

  lemma WhiteSinglesValue(pawns: Bitboard, all: Bitboard, x: Bitboard, e: Bitboard, s: Bitboard, t: int)
    requires IsSquare(t) && x == pawns << 8 && e == !all && s == x & e
    ensures Has(s, t) <==> t >= 8 && Has(pawns, t - 8) && !Has(all, t)
  {
    AndHas(x, e, t);
    NotHas(all, t);
    Shl8Has(pawns, t);
  }

  lemma BlackSinglesValue(pawns: Bitboard, all: Bitboard, x: Bitboard, e: Bitboard, s: Bitboard, t: int)
    requires IsSquare(t) && x == pawns >> 8 && e == !all && s == x & e
    ensures Has(s, t) <==> t + 8 < 64 && Has(pawns, t + 8) && !Has(all, t)
  {
    AndHas(x, e, t);
    NotHas(all, t);
    Shr8Has(pawns, t);
  }

  /** A White single push goes to an empty square with the pawn one rank below it. */
  lemma WhiteSinglesHas(pawns: Bitboard, all: Bitboard, t: int)
    requires IsSquare(t)
    ensures Has(Singles(White, pawns, all), t) <==> t >= 8 && Has(pawns, t - 8) && !Has(all, t)
  {
    var x, e := pawns << 8, !all;
    WhiteSinglesValue(pawns, all, x, e, Singles(White, pawns, all), t);
  }

  /** A Black single push goes to an empty square with the pawn one rank above it. */
  lemma BlackSinglesHas(pawns: Bitboard, all: Bitboard, t: int)
    requires IsSquare(t)
    ensures Has(Singles(Black, pawns, all), t) <==> t + 8 < 64 && Has(pawns, t + 8) && !Has(all, t)
  {
    var x, e := pawns >> 8, !all;
    BlackSinglesValue(pawns, all, x, e, Singles(Black, pawns, all), t);
  }

  lemma WhiteDoublesValue(pawns: Bitboard, all: Bitboard, s: Bitboard, r: Bitboard, x: Bitboard,
                          y: Bitboard, e: Bitboard, d: Bitboard, t: int)
    requires IsSquare(t) && s == Singles(White, pawns, all) && r == RANK_2 << 8
    requires x == s & r && y == x << 8 && e == !all && d == y & e
    ensures Has(d, t) <==>
      t >= 16 && Has(pawns, t - 16) && Rank(t - 16) == 1 && !Has(all, t - 8) && !Has(all, t)
  {
    AndHas(y, e, t);
    NotHas(all, t);
    Shl8Has(x, t);
    if t >= 8 {
      AndHas(s, r, t - 8);
      Shl8Has(RANK_2, t - 8);
      WhiteSinglesHas(pawns, all, t - 8);
      if t >= 16 {
        Rank2Has(t - 16);
      }
    }
  }

  lemma BlackDoublesValue(pawns: Bitboard, all: Bitboard, s: Bitboard, r: Bitboard, x: Bitboard,
                          y: Bitboard, e: Bitboard, d: Bitboard, t: int)
    requires IsSquare(t) && s == Singles(Black, pawns, all) && r == RANK_7 >> 8
    requires x == s & r && y == x >> 8 && e == !all && d == y & e
    ensures Has(d, t) <==>
      t + 16 < 64 && Has(pawns, t + 16) && Rank(t + 16) == 6 && !Has(all, t + 8) && !Has(all, t)
  {
    AndHas(y, e, t);
    NotHas(all, t);
    Shr8Has(x, t);
    if t + 8 < 64 {
      AndHas(s, r, t + 8);
      Shr8Has(RANK_7, t + 8);
      BlackSinglesHas(pawns, all, t + 8);
      if t + 16 < 64 {
        Rank7Has(t + 16);
      }
    }
  }

  /** A White double push starts on rank 2 and crosses an empty square to
      an empty square. */
  lemma WhiteDoublesHas(pawns: Bitboard, all: Bitboard, t: int)
    requires IsSquare(t)
    ensures Has(Doubles(White, pawns, all), t) <==>
      t >= 16 && Has(pawns, t - 16) && Rank(t - 16) == 1 && !Has(all, t - 8) && !Has(all, t)
  {
    var s, r := Singles(White, pawns, all), RANK_2 << 8;
    var x := s & r;
    var y, e := x << 8, !all;
    WhiteDoublesValue(pawns, all, s, r, x, y, e, Doubles(White, pawns, all), t);
  }

  /** A Black double push starts on rank 7 and crosses an empty square to
      an empty square. */
  lemma BlackDoublesHas(pawns: Bitboard, all: Bitboard, t: int)
    requires IsSquare(t)
    ensures Has(Doubles(Black, pawns, all), t) <==>
      t + 16 < 64 && Has(pawns, t + 16) && Rank(t + 16) == 6 && !Has(all, t + 8) && !Has(all, t)
  {
    var s, r := Singles(Black, pawns, all), RANK_7 >> 8;
    var x := s & r;
    var y, e := x >> 8, !all;
    BlackDoublesValue(pawns, all, s, r, x, y, e, Doubles(Black, pawns, all), t);
  }

  /** `b & ~FILE_A` and `b & ~FILE_H` drop the a-file and the h-file. */
  lemma OffFileHas(b: Bitboard, sq: int)
    requires IsSquare(sq)
    ensures Has(b & !FILE_A, sq) <==> Has(b, sq) && File(sq) != 0
    ensures Has(b & !FILE_H, sq) <==> Has(b, sq) && File(sq) != 7
  {
    AndNotHas(b, FILE_A, sq);
    AndNotHas(b, FILE_H, sq);
    FileAHas(sq);
    FileHHas(sq);
  }

  /** A capture `d` squares up the board (`up`) or down it from pawns `x`
      kept off one edge file, onto a square of `their`. */
  lemma CaptureValue(pawns: Bitboard, their: Bitboard, x: Bitboard, y: Bitboard, z: Bitboard,
                     t: int, d: int, up: bool, edge: int)
    requires IsSquare(t) && (d == 7 || d == 9) && (edge == 0 || edge == 7)
    requires x == (if edge == 0 then pawns & !FILE_A else pawns & !FILE_H)
    requires y == (if up && d == 7 then x << 7 else if up then x << 9 else if d == 7 then x >> 7 else x >> 9)
    requires z == y & their
    ensures var s := if up then t - d else t + d;
      Has(z, t) <==> IsSquare(s) && Has(pawns, s) && File(s) != edge && Has(their, t)
  {
    AndHas(y, their, t);
    var s := if up then t - d else t + d;
    if up && d == 7 {
      Shl7Has(x, t);
    } else if up {
      Shl9Has(x, t);
    } else if d == 7 {
      Shr7Has(x, t);
    } else {
      Shr9Has(x, t);
    }
    if IsSquare(s) {
      OffFileHas(pawns, s);
    }
  }

  /** White's captures towards the a-file come from a pawn off the a-file. */
  lemma WhiteCaptures7Has(pawns: Bitboard, their: Bitboard, t: int)
    requires IsSquare(t)
    ensures Has(Captures7(White, pawns, their), t) <==>
      IsSquare(t - 7) && Has(pawns, t - 7) && File(t - 7) != 0 && Has(their, t)
  {
    var x := pawns & !FILE_A;
    var y := x << 7;
    CaptureValue(pawns, their, x, y, Captures7(White, pawns, their), t, 7, true, 0);
  }

  /** Black's captures towards the h-file come from a pawn off the h-file. */
  lemma BlackCaptures7Has(pawns: Bitboard, their: Bitboard, t: int)
    requires IsSquare(t)
    ensures Has(Captures7(Black, pawns, their), t) <==>
      IsSquare(t + 7) && Has(pawns, t + 7) && File(t + 7) != 7 && Has(their, t)
  {
    var x := pawns & !FILE_H;
    var y := x >> 7;
    CaptureValue(pawns, their, x, y, Captures7(Black, pawns, their), t, 7, false, 7);
  }

  /** White's captures towards the h-file come from a pawn off the h-file. */
  lemma WhiteCaptures9Has(pawns: Bitboard, their: Bitboard, t: int)
    requires IsSquare(t)
    ensures Has(Captures9(White, pawns, their), t) <==>
      IsSquare(t - 9) && Has(pawns, t - 9) && File(t - 9) != 7 && Has(their, t)
  {
    var x := pawns & !FILE_H;
    var y := x << 9;
    CaptureValue(pawns, their, x, y, Captures9(White, pawns, their), t, 9, true, 7);
  }

  /** Black's captures towards the a-file come from a pawn off the a-file. */
  lemma BlackCaptures9Has(pawns: Bitboard, their: Bitboard, t: int)
    requires IsSquare(t)
    ensures Has(Captures9(Black, pawns, their), t) <==>
      IsSquare(t + 9) && Has(pawns, t + 9) && File(t + 9) != 0 && Has(their, t)
  {
    var x := pawns & !FILE_A;
    var y := x >> 9;
    CaptureValue(pawns, their, x, y, Captures9(Black, pawns, their), t, 9, false, 0);
  }

  // ---------------------------------------------------------------------
  // En passant

  /** The en-passant section: when there is an en-passant square, a capture
      onto it from each of the two squares a friendly pawn could take it
      from, probed with the shifted square mask `epMask >> 7`, `>> 9`
      (`<< 7`, `<< 9` for Black). */
  function EpMoves(c: Color, pawns: Bitboard, ep: int): seq<Move>
    requires ep == -1 || IsSquare(ep)
  {
    if ep == -1 then []
    else if c == White then
      EpCapture(pawns & !FILE_A, Bit(ep) >> 7, ep - 7, ep) + EpCapture(pawns & !FILE_H, Bit(ep) >> 9, ep - 9, ep)
    else
      EpCapture(pawns & !FILE_H, Bit(ep) << 7, ep + 7, ep) + EpCapture(pawns & !FILE_A, Bit(ep) << 9, ep + 9, ep)
  }

  /** One en-passant test: the capture from `from` onto `ep` when a pawn of
      `pawns` stands on a square of the shifted mask `near`. */
  function EpCapture(pawns: Bitboard, near: Bitboard, from: int, ep: int): seq<Move>
  {
    if pawns & near != 0 then [Move(from, ep, 0, EP_FLAGS)] else []
  }

  lemma ShrBitAt(x: Bitboard, k: bv6)
    ensures x & (BitAt(k) >> 7) != 0 <==> k >= 7 && HasAt(x, k - 7)
    ensures x & (BitAt(k) >> 9) != 0 <==> k >= 9 && HasAt(x, k - 9)
  {}

  lemma ShlBitAt(x: Bitboard, k: bv6)
    ensures x & (BitAt(k) << 7) != 0 <==> k < 57 && HasAt(x, k + 7)
    ensures x & (BitAt(k) << 9) != 0 <==> k < 55 && HasAt(x, k + 9)
  {}

  /** `x & (epMask >> 7)` tests the square seven below the en-passant square. */
  lemma ShrTest7(x: Bitboard, s: Bitboard, ep: int)
    requires IsSquare(ep) && s == Bit(ep) >> 7
    ensures x & s != 0 <==> ep >= 7 && Has(x, ep - 7)
  {
    ShrBitAt(x, Index(ep));
    IndexValue(ep);
    IndexValue(7);
    if ep >= 7 {
      IndexAdd(ep - 7, 7);
    }
  }

  /** `x & (epMask >> 9)` tests the square nine below the en-passant square. */
  lemma ShrTest9(x: Bitboard, s: Bitboard, ep: int)
    requires IsSquare(ep) && s == Bit(ep) >> 9
    ensures x & s != 0 <==> ep >= 9 && Has(x, ep - 9)
  {
    ShrBitAt(x, Index(ep));
    IndexValue(ep);
    IndexValue(9);
    if ep >= 9 {
      IndexAdd(ep - 9, 9);
    }
  }

  /** `x & (epMask << 7)` tests the square seven above the en-passant square. */
  lemma ShlTest7(x: Bitboard, s: Bitboard, ep: int)
    requires IsSquare(ep) && s == Bit(ep) << 7
    ensures x & s != 0 <==> ep + 7 < 64 && Has(x, ep + 7)
  {
    ShlBitAt(x, Index(ep));
    IndexValue(ep);
    IndexValue(7);
    if ep + 7 < 64 {
      IndexAdd(ep, 7);
    }
  }

  /** `x & (epMask << 9)` tests the square nine above the en-passant square. */
  lemma ShlTest9(x: Bitboard, s: Bitboard, ep: int)
    requires IsSquare(ep) && s == Bit(ep) << 9
    ensures x & s != 0 <==> ep + 9 < 64 && Has(x, ep + 9)
  {
    ShlBitAt(x, Index(ep));
    IndexValue(ep);
    IndexValue(9);
    if ep + 9 < 64 {
      IndexAdd(ep, 9);
    }
  }

  lemma OffFileA(b: Bitboard, a: Bitboard, sq: int)
    requires IsSquare(sq) && a == b & !FILE_A
    ensures Has(a, sq) <==> Has(b, sq) && File(sq) != 0
  {
    AndNotHas(b, FILE_A, sq);
    FileAHas(sq);
  }

  lemma OffFileH(b: Bitboard, h: Bitboard, sq: int)
    requires IsSquare(sq) && h == b & !FILE_H
    ensures Has(h, sq) <==> Has(b, sq) && File(sq) != 7
  {
    AndNotHas(b, FILE_H, sq);
    FileHHas(sq);
  }

  lemma WhiteEp7Value(pawns: Bitboard, ep: int, a: Bitboard, s: Bitboard)
    requires IsSquare(ep) && a == pawns & !FILE_A && s == Bit(ep) >> 7
    ensures a & s != 0 <==> ep >= 7 && Has(pawns, ep - 7) && File(ep - 7) != 0
  {
    ShrTest7(a, s, ep);
    if ep >= 7 {
      OffFileA(pawns, a, ep - 7);
    }
  }

  lemma WhiteEp9Value(pawns: Bitboard, ep: int, h: Bitboard, s: Bitboard)
    requires IsSquare(ep) && h == pawns & !FILE_H && s == Bit(ep) >> 9
    ensures h & s != 0 <==> ep >= 9 && Has(pawns, ep - 9) && File(ep - 9) != 7
  {
    ShrTest9(h, s, ep);
    if ep >= 9 {
      OffFileH(pawns, h, ep - 9);
    }
  }

  lemma BlackEp7Value(pawns: Bitboard, ep: int, h: Bitboard, s: Bitboard)
    requires IsSquare(ep) && h == pawns & !FILE_H && s == Bit(ep) << 7
    ensures h & s != 0 <==> ep + 7 < 64 && Has(pawns, ep + 7) && File(ep + 7) != 7
  {
    ShlTest7(h, s, ep);
    if ep + 7 < 64 {
      OffFileH(pawns, h, ep + 7);
    }
  }

  lemma BlackEp9Value(pawns: Bitboard, ep: int, a: Bitboard, s: Bitboard)
    requires IsSquare(ep) && a == pawns & !FILE_A && s == Bit(ep) << 9
    ensures a & s != 0 <==> ep + 9 < 64 && Has(pawns, ep + 9) && File(ep + 9) != 0
  {
    ShlTest9(a, s, ep);
    if ep + 9 < 64 {
      OffFileA(pawns, a, ep + 9);
    }
  }

  /** White's test of a pawn off the a-file seven squares below. */
  lemma WhiteEp7(pawns: Bitboard, ep: int)
    requires IsSquare(ep)
    ensures (pawns & !FILE_A) & (Bit(ep) >> 7) != 0 <==> ep >= 7 && Has(pawns, ep - 7) && File(ep - 7) != 0
  {
    var a, s := pawns & !FILE_A, Bit(ep) >> 7;
    WhiteEp7Value(pawns, ep, a, s);
  }

  /** White's test of a pawn off the h-file nine squares below. */
  lemma WhiteEp9(pawns: Bitboard, ep: int)
    requires IsSquare(ep)
    ensures (pawns & !FILE_H) & (Bit(ep) >> 9) != 0 <==> ep >= 9 && Has(pawns, ep - 9) && File(ep - 9) != 7
  {
    var h, s := pawns & !FILE_H, Bit(ep) >> 9;
    WhiteEp9Value(pawns, ep, h, s);
  }

  /** Black's test of a pawn off the h-file seven squares above. */
  lemma BlackEp7(pawns: Bitboard, ep: int)
    requires IsSquare(ep)
    ensures (pawns & !FILE_H) & (Bit(ep) << 7) != 0 <==> ep + 7 < 64 && Has(pawns, ep + 7) && File(ep + 7) != 7
  {
    var h, s := pawns & !FILE_H, Bit(ep) << 7;
    BlackEp7Value(pawns, ep, h, s);
  }

  /** Black's test of a pawn off the a-file nine squares above. */
  lemma BlackEp9(pawns: Bitboard, ep: int)
    requires IsSquare(ep)
    ensures (pawns & !FILE_A) & (Bit(ep) << 9) != 0 <==> ep + 9 < 64 && Has(pawns, ep + 9) && File(ep + 9) != 0
  {
    var a, s := pawns & !FILE_A, Bit(ep) << 9;
    BlackEp9Value(pawns, ep, a, s);
  }

  lemma WhiteEpHas(pawns: Bitboard, ep: int, m: Move)
    requires IsSquare(ep)
    ensures m in EpMoves(White, pawns, ep) <==>
      m.to == ep && m.promo == 0 && m.flags == EP_FLAGS && PawnAttacker(White, m.from, ep) && Has(pawns, m.from)
  {
    WhiteEp7(pawns, ep);
    WhiteEp9(pawns, ep);
    if IsSquare(m.from) {
      PawnAttackers(White, m.from, ep);
    }
  }

  lemma BlackEpHas(pawns: Bitboard, ep: int, m: Move)
    requires IsSquare(ep)
    ensures m in EpMoves(Black, pawns, ep) <==>
      m.to == ep && m.promo == 0 && m.flags == EP_FLAGS && PawnAttacker(Black, m.from, ep) && Has(pawns, m.from)
  {
    BlackEp7(pawns, ep);
    BlackEp9(pawns, ep);
    if IsSquare(m.from) {
      PawnAttackers(Black, m.from, ep);
    }
  }

  /** An en-passant move is generated exactly when there is an en-passant
      square and a friendly pawn attacks it; it carries the flags
      `MF_ENPASSANT | MF_CAPTURE` and no promotion. */
  lemma EpMovesHas(c: Color, pawns: Bitboard, ep: int, m: Move)
    requires ep == -1 || IsSquare(ep)
    ensures m in EpMoves(c, pawns, ep) <==>
      ep != -1 && m.to == ep && m.promo == 0 && m.flags == EP_FLAGS
      && PawnAttacker(c, m.from, ep) && Has(pawns, m.from)
  {
    if ep != -1 {
      if c == White {
        WhiteEpHas(pawns, ep, m);
      } else {
        BlackEpHas(pawns, ep, m);
      }
    }
  }

  // ---------------------------------------------------------------------
  // Knights, king and sliders

  /** Moves from a table mask: first to the empty squares of `attacks`,
      then to its enemy squares, each in ascending order. */
  function StepMoves(from: int, attacks: Bitboard, all: Bitboard, their: Bitboard): seq<Move>
  {
    Targets(from, attacks & !all) + Targets(from, attacks & their)
  }

  /** A table move goes to a square of the mask that is empty or enemy. */
  lemma StepMovesHas(from: int, attacks: Bitboard, all: Bitboard, their: Bitboard, m: Move)
    ensures m in StepMoves(from, attacks, all, their) <==>
      m.from == from && m.promo == 0 && m.flags == 0 && IsSquare(m.to)
      && Has(attacks, m.to) && (!Has(all, m.to) || Has(their, m.to))
  {
    TargetsHas(from, attacks & !all, m);
    TargetsHas(from, attacks & their, m);
    if IsSquare(m.to) {
      AndNotHas(attacks, all, m.to);
      AndHas(attacks, their, m.to);
    }
  }

  /** `slideInDirection` from the walk's square (r, f) on: every empty
      square up to the first occupied one, and that one only when it holds
      an enemy piece. */
  function Ray(all: Bitboard, their: Bitboard, from: int, r: int, f: int, dr: int, df: int): seq<Move>
    requires Direction(dr, df)
    decreases Room(r, f, dr, df)
  {
    if !Attacks.OnBoard(r, f) then []
    else if Has(all, Sq(r, f)) then (if Has(their, Sq(r, f)) then [Move(from, Sq(r, f), 0, 0)] else [])
    else [Move(from, Sq(r, f), 0, 0)] + Ray(all, their, from, r + dr, f + df, dr, df)
  }

  /** `slideInDirection(b, out, from, dr, df)`: the walk starts next to `from`. */
  function RayFrom(all: Bitboard, their: Bitboard, from: int, dr: int, df: int): seq<Move>
    requires IsSquare(from) && Direction(dr, df)
  {
    Ray(all, their, from, Rank(from) + dr, File(from) + df, dr, df)
  }

  /** A slide reaches its targets through empty squares, and ends on an
      occupied one only when an enemy stands there. */
  lemma {:induction false} RayHas(all: Bitboard, their: Bitboard, from: int, r: int, f: int,
                                  dr: int, df: int, m: Move)
    requires Direction(dr, df)
    ensures m in Ray(all, their, from, r, f, dr, df) <==>
      m.from == from && m.promo == 0 && m.flags == 0
      && Reach(all, r, f, dr, df, m.to) && IsSquare(m.to) && (Has(all, m.to) ==> Has(their, m.to))
    decreases Room(r, f, dr, df)
  {
    if Attacks.OnBoard(r, f) {
      SqParts(r, f);
      if Has(all, Sq(r, f)) {
        RayStops(all, their, from, r, f, dr, df, m);
      } else {
        RayHas(all, their, from, r + dr, f + df, dr, df, m);
        RayPasses(all, their, from, r, f, dr, df, m);
      }
    }
  }

  /** The walk of a slide stops on an occupied square. */
  lemma RayStops(all: Bitboard, their: Bitboard, from: int, r: int, f: int, dr: int, df: int, m: Move)
    requires Direction(dr, df) && Attacks.OnBoard(r, f) && IsSquare(Sq(r, f)) && Has(all, Sq(r, f))
    ensures m in Ray(all, their, from, r, f, dr, df) <==>
      m.from == from && m.promo == 0 && m.flags == 0
      && Reach(all, r, f, dr, df, m.to) && IsSquare(m.to) && (Has(all, m.to) ==> Has(their, m.to))
  {
  }

  /** The walk of a slide passes an empty square: one more target before
      the rest of the ray. */
  lemma RayPasses(all: Bitboard, their: Bitboard, from: int, r: int, f: int, dr: int, df: int, m: Move)
    requires Direction(dr, df) && Attacks.OnBoard(r, f) && IsSquare(Sq(r, f)) && !Has(all, Sq(r, f))
    requires m in Ray(all, their, from, r + dr, f + df, dr, df) <==>
      m.from == from && m.promo == 0 && m.flags == 0
      && Reach(all, r + dr, f + df, dr, df, m.to) && IsSquare(m.to) && (Has(all, m.to) ==> Has(their, m.to))
    ensures m in Ray(all, their, from, r, f, dr, df) <==>
      m.from == from && m.promo == 0 && m.flags == 0
      && Reach(all, r, f, dr, df, m.to) && IsSquare(m.to) && (Has(all, m.to) ==> Has(their, m.to))
  {
  }

  /** A slide goes to a square other than its origin that is empty or enemy. */
  lemma RayTargets(all: Bitboard, their: Bitboard, from: int, dr: int, df: int, m: Move)
    requires IsSquare(from) && Direction(dr, df) && m in RayFrom(all, their, from, dr, df)
    ensures m.from == from && m.promo == 0 && m.flags == 0 && IsSquare(m.to) && m.to != from
    ensures !Has(all, m.to) || Has(their, m.to)
  {
    RayHas(all, their, from, Rank(from) + dr, File(from) + df, dr, df, m);
    ReachAhead(all, Rank(from) + dr, File(from) + df, dr, df, m.to);
  }

  /** The four diagonal slides of a bishop, in the source's order. */
  function DiagonalMoves(all: Bitboard, their: Bitboard, from: int): seq<Move>
    requires IsSquare(from)
  {
    RayFrom(all, their, from, 1, 1) + RayFrom(all, their, from, 1, -1)
    + RayFrom(all, their, from, -1, 1) + RayFrom(all, their, from, -1, -1)
  }

  /** The four straight slides of a rook, in the source's order. */
  function StraightMoves(all: Bitboard, their: Bitboard, from: int): seq<Move>
    requires IsSquare(from)
  {
    RayFrom(all, their, from, 1, 0) + RayFrom(all, their, from, -1, 0)
    + RayFrom(all, their, from, 0, 1) + RayFrom(all, their, from, 0, -1)
  }

  /** The moves of one piece of kind `kind` (1 knight ... 5 king) on `from`;
      a queen slides diagonally first, then straight. */
  function PieceMoves(kind: int, all: Bitboard, their: Bitboard, from: int): seq<Move>
    requires 1 <= kind <= 5 && IsSquare(from)
  {
    if kind == 1 then StepMoves(from, KnightMask(from), all, their)
    else if kind == 2 then DiagonalMoves(all, their, from)
    else if kind == 3 then StraightMoves(all, their, from)
    else if kind == 4 then DiagonalMoves(all, their, from) + StraightMoves(all, their, from)
    else StepMoves(from, KingMask(from), all, their)
  }

  /** The moves of every piece on the squares `origins`, in that order. */
  function Sweep(kind: int, all: Bitboard, their: Bitboard, pieces: Bitboard): seq<Move>
    requires 1 <= kind <= 5
    decreases |Squares(pieces)|
  {
    if pieces == 0 then []
    else
      ClearLowest(pieces);
      PieceMoves(kind, all, their, Lsb(pieces)) + Sweep(kind, all, their, pieces & (pieces - 1))
  }

  // ---------------------------------------------------------------------
  // Castling

  /** The king's home square: e1 for White, e8 for Black. */
  function KingHome(c: Color): int { if c == White then 4 else 60 }

  /** The conditions for castling with right `k` (even `k` king side, odd
      `k` queen side): the right is held, the two squares next to the king
      towards the rook are empty, the rook stands on its corner, and the
      other side attacks neither the king's square nor those two squares. */
  predicate CastleOk(pcs: seq<Bitboard>, castle: bv8, all: Bitboard, c: Color, k: int)
    requires |pcs| == 12 && 0 <= k < 4
  {
    var e := KingHome(c);
    var dir := if k % 2 == 0 then 1 else -1;
    castle & Right(k) != 0
    && !Has(all, e + dir) && !Has(all, e + 2 * dir)
    && Has(pcs[PieceOf(c, 3)], Corner(k))
    && !AttackedBy(pcs, all, e, Other(c))
    && !AttackedBy(pcs, all, e + dir, Other(c))
    && !AttackedBy(pcs, all, e + 2 * dir, Other(c))
  }

  /** The castling section: only with the king on its home square, the
      king-side move first, then the queen-side one. */
  function CastleMoves(p: Position, all: Bitboard): seq<Move>
    requires Shaped(p)
  {
    var c := p.stm;
    var k := if c == White then 0 else 2;
    if !Has(p.pcs[PieceOf(c, 5)], KingHome(c)) then []
    else CastleTry(p.pcs, p.castle, all, c, k) + CastleTry(p.pcs, p.castle, all, c, k + 1)
  }

  /** One castling side: the king's two-square move towards the rook of
      right `k` when the conditions of that side hold. */
  function CastleTry(pcs: seq<Bitboard>, castle: bv8, all: Bitboard, c: Color, k: int): seq<Move>
    requires |pcs| == 12 && 0 <= k < 4
  {
    var e := KingHome(c);
    var dir := if k % 2 == 0 then 1 else -1;
    if CastleOk(pcs, castle, all, c, k) then [Move(e, e + 2 * dir, 0, MF_CASTLE)] else []
  }

  /** A castling move is generated exactly for a king on its home square
      and a side whose conditions hold, towards that side's rook. */
  lemma CastleMovesHas(p: Position, all: Bitboard, m: Move)
    requires Shaped(p)
    ensures m in CastleMoves(p, all) <==> CastleMove(p, all, m)
  {}

  // ---------------------------------------------------------------------
  // All pseudo-legal moves

  /** What generation needs of a position: the C++ array sizes, an
      en-passant square on the board or none, and a king for the side to
      move (`lsb` of an empty bitboard is undefined). */
  predicate Generable(p: Position)
  {
    Shaped(p) && (p.ep == -1 || IsSquare(p.ep)) && p.pcs[PieceOf(p.stm, 5)] != 0
  }

  /** The occupancy of the side not to move. */
  function Their(p: Position, occ: seq<Bitboard>): Bitboard
    requires |occ| == 2
  {
    if p.stm == White then occ[1] else occ[0]
  }

  /** Every move the generator pushes before filtering, in the source's
      order: pawns, en passant, knights, bishops, rooks, queens, king,
      castling. */
  function Pseudo(p: Position, occ: seq<Bitboard>, all: Bitboard): seq<Move>
    requires Generable(p) && |occ| == 2
  {
    var c, pcs, their := p.stm, p.pcs, Their(p, occ);
    PawnMoves(c, pcs[PieceOf(c, 0)], all, their)
    + EpMoves(c, pcs[PieceOf(c, 0)], p.ep)
    + Sweep(1, all, their, pcs[PieceOf(c, 1)])
    + Sweep(2, all, their, pcs[PieceOf(c, 2)])
    + Sweep(3, all, their, pcs[PieceOf(c, 3)])
    + Sweep(4, all, their, pcs[PieceOf(c, 4)])
    + PieceMoves(5, all, their, Lsb(pcs[PieceOf(c, 5)]))
    + CastleMoves(p, all)
  }

  // ---------------------------------------------------------------------
  // The shapes of the emitted moves

  /** An ordinary move of the mover's piece of kind `kind`: between two
      different squares, to an empty or enemy square, and, for a pawn's
      two-rank push, over an empty square. */
  ghost predicate PlainMove(p: Position, all: Bitboard, their: Bitboard, m: Move, kind: int)
    requires Shaped(p) && 0 <= kind < 6
  {
    IsSquare(m.from) && IsSquare(m.to) && m.from != m.to && m.promo == 0 && m.flags == 0
    && Has(p.pcs[PieceOf(p.stm, kind)], m.from)
    && (!Has(all, m.to) || Has(their, m.to))
    && var e := EpAfter(PieceOf(p.stm, kind), m.from, m.to);
       (e != -1 ==> IsSquare(e) && !Has(all, e))
  }

  /** An en-passant capture onto the en-passant square by a friendly pawn. */
  ghost predicate EpMove(p: Position, m: Move)
    requires Shaped(p)
  {
    p.ep != -1 && m.to == p.ep && m.promo == 0 && m.flags == EP_FLAGS
    && PawnAttacker(p.stm, m.from, p.ep) && Has(p.pcs[PieceOf(p.stm, 0)], m.from)
  }

  /** A castling move of the king from its home square two squares towards
      a rook, under `CastleOk`. */
  ghost predicate CastleMove(p: Position, all: Bitboard, m: Move)
    requires Shaped(p)
  {
    var e := KingHome(p.stm);
    var k := if p.stm == White then 0 else 2;
    m.from == e && m.promo == 0 && m.flags == MF_CASTLE && Has(p.pcs[PieceOf(p.stm, 5)], e)
    && ((m.to == e + 2 && CastleOk(p.pcs, p.castle, all, p.stm, k))
        || (m.to == e - 2 && CastleOk(p.pcs, p.castle, all, p.stm, k + 1)))
  }

  /** A pushed pawn move goes to a square of the mask, from `d` squares back. */
  lemma PushTarget(s: Bitboard, d: int, m: Move)
    requires m in Pushes(s, d)
    ensures IsSquare(m.to) && Has(s, m.to) && m.from == m.to - d && m.promo == 0 && m.flags == 0
  {
    PushesHas(s, d, m);
  }

  lemma WhiteSinglesEmitted(p: Position, all: Bitboard, their: Bitboard, m: Move)
    requires Shaped(p) && p.stm == White
    requires m in Pushes(Singles(White, p.pcs[WP], all), 8)
    ensures PlainMove(p, all, their, m, 0)
  {
    PushTarget(Singles(White, p.pcs[WP], all), 8, m);
    WhiteSinglesHas(p.pcs[WP], all, m.to);
  }

  lemma BlackSinglesEmitted(p: Position, all: Bitboard, their: Bitboard, m: Move)
    requires Shaped(p) && p.stm == Black
    requires m in Pushes(Singles(Black, p.pcs[BP], all), -8)
    ensures PlainMove(p, all, their, m, 0)
  {
    PushTarget(Singles(Black, p.pcs[BP], all), -8, m);
    BlackSinglesHas(p.pcs[BP], all, m.to);
  }

  lemma SinglesEmitted(p: Position, all: Bitboard, their: Bitboard, m: Move)
    requires Shaped(p)
    requires m in Pushes(Singles(p.stm, p.pcs[PieceOf(p.stm, 0)], all), 8 * Forward(p.stm))
    ensures PlainMove(p, all, their, m, 0)
  {
    if p.stm == White {
      WhiteSinglesEmitted(p, all, their, m);
    } else {
      BlackSinglesEmitted(p, all, their, m);
    }
  }

  lemma WhiteDoublesEmitted(p: Position, all: Bitboard, their: Bitboard, m: Move)
    requires Shaped(p) && p.stm == White
    requires m in Pushes(Doubles(White, p.pcs[WP], all), 16)
    ensures PlainMove(p, all, their, m, 0)
  {
    PushTarget(Doubles(White, p.pcs[WP], all), 16, m);
    WhiteDoublesHas(p.pcs[WP], all, m.to);
  }

  lemma BlackDoublesEmitted(p: Position, all: Bitboard, their: Bitboard, m: Move)
    requires Shaped(p) && p.stm == Black
    requires m in Pushes(Doubles(Black, p.pcs[BP], all), -16)
    ensures PlainMove(p, all, their, m, 0)
  {
    PushTarget(Doubles(Black, p.pcs[BP], all), -16, m);
    BlackDoublesHas(p.pcs[BP], all, m.to);
  }

  lemma DoublesEmitted(p: Position, all: Bitboard, their: Bitboard, m: Move)
    requires Shaped(p)
    requires m in Pushes(Doubles(p.stm, p.pcs[PieceOf(p.stm, 0)], all), 16 * Forward(p.stm))
    ensures PlainMove(p, all, their, m, 0)
  {
    if p.stm == White {
      WhiteDoublesEmitted(p, all, their, m);
    } else {
      BlackDoublesEmitted(p, all, their, m);
    }
  }

  lemma WhiteCaptures7Emitted(p: Position, all: Bitboard, their: Bitboard, m: Move)
    requires Shaped(p) && p.stm == White
    requires m in Pushes(Captures7(White, p.pcs[WP], their), 7)
    ensures PlainMove(p, all, their, m, 0)
  {
    PushTarget(Captures7(White, p.pcs[WP], their), 7, m);
    WhiteCaptures7Has(p.pcs[WP], their, m.to);
  }

  lemma BlackCaptures7Emitted(p: Position, all: Bitboard, their: Bitboard, m: Move)
    requires Shaped(p) && p.stm == Black
    requires m in Pushes(Captures7(Black, p.pcs[BP], their), -7)
    ensures PlainMove(p, all, their, m, 0)
  {
    PushTarget(Captures7(Black, p.pcs[BP], their), -7, m);
    BlackCaptures7Has(p.pcs[BP], their, m.to);
  }

  lemma Captures7Emitted(p: Position, all: Bitboard, their: Bitboard, m: Move)
    requires Shaped(p)
    requires m in Pushes(Captures7(p.stm, p.pcs[PieceOf(p.stm, 0)], their), 7 * Forward(p.stm))
    ensures PlainMove(p, all, their, m, 0)
  {
    if p.stm == White {
      WhiteCaptures7Emitted(p, all, their, m);
    } else {
      BlackCaptures7Emitted(p, all, their, m);
    }
  }

  lemma WhiteCaptures9Emitted(p: Position, all: Bitboard, their: Bitboard, m: Move)
    requires Shaped(p) && p.stm == White
    requires m in Pushes(Captures9(White, p.pcs[WP], their), 9)
    ensures PlainMove(p, all, their, m, 0)
  {
    PushTarget(Captures9(White, p.pcs[WP], their), 9, m);
    WhiteCaptures9Has(p.pcs[WP], their, m.to);
  }

  lemma BlackCaptures9Emitted(p: Position, all: Bitboard, their: Bitboard, m: Move)
    requires Shaped(p) && p.stm == Black
    requires m in Pushes(Captures9(Black, p.pcs[BP], their), -9)
    ensures PlainMove(p, all, their, m, 0)
  {
    PushTarget(Captures9(Black, p.pcs[BP], their), -9, m);
    BlackCaptures9Has(p.pcs[BP], their, m.to);
  }

  lemma Captures9Emitted(p: Position, all: Bitboard, their: Bitboard, m: Move)
    requires Shaped(p)
    requires m in Pushes(Captures9(p.stm, p.pcs[PieceOf(p.stm, 0)], their), 9 * Forward(p.stm))
    ensures PlainMove(p, all, their, m, 0)
  {
    if p.stm == White {
      WhiteCaptures9Emitted(p, all, their, m);
    } else {
      BlackCaptures9Emitted(p, all, their, m);
    }
  }

  lemma PawnMovesEmitted(p: Position, all: Bitboard, their: Bitboard, m: Move)
    requires Shaped(p) && m in PawnMoves(p.stm, p.pcs[PieceOf(p.stm, 0)], all, their)
    ensures PlainMove(p, all, their, m, 0)
  {
    var c, pawns, f := p.stm, p.pcs[PieceOf(p.stm, 0)], Forward(p.stm);
    if m in Pushes(Singles(c, pawns, all), 8 * f) {
      SinglesEmitted(p, all, their, m);
    } else if m in Pushes(Doubles(c, pawns, all), 16 * f) {
      DoublesEmitted(p, all, their, m);
    } else if m in Pushes(Captures7(c, pawns, their), 7 * f) {
      Captures7Emitted(p, all, their, m);
    } else {
      Captures9Emitted(p, all, their, m);
    }
  }

  /** A diagonal slide goes to a square other than its origin that is
      empty or enemy. */
  lemma DiagonalTargets(all: Bitboard, their: Bitboard, from: int, m: Move)
    requires IsSquare(from) && m in DiagonalMoves(all, their, from)
    ensures m.from == from && m.promo == 0 && m.flags == 0 && IsSquare(m.to) && m.to != from
    ensures !Has(all, m.to) || Has(their, m.to)
  {
    if m in RayFrom(all, their, from, 1, 1) {
      RayTargets(all, their, from, 1, 1, m);
    } else if m in RayFrom(all, their, from, 1, -1) {
      RayTargets(all, their, from, 1, -1, m);
    } else if m in RayFrom(all, their, from, -1, 1) {
      RayTargets(all, their, from, -1, 1, m);
    } else {
      RayTargets(all, their, from, -1, -1, m);
    }
  }

  /** A straight slide goes to a square other than its origin that is
      empty or enemy. */
  lemma StraightTargets(all: Bitboard, their: Bitboard, from: int, m: Move)
    requires IsSquare(from) && m in StraightMoves(all, their, from)
    ensures m.from == from && m.promo == 0 && m.flags == 0 && IsSquare(m.to) && m.to != from
    ensures !Has(all, m.to) || Has(their, m.to)
  {
    if m in RayFrom(all, their, from, 1, 0) {
      RayTargets(all, their, from, 1, 0, m);
    } else if m in RayFrom(all, their, from, -1, 0) {
      RayTargets(all, their, from, -1, 0, m);
    } else if m in RayFrom(all, their, from, 0, 1) {
      RayTargets(all, their, from, 0, 1, m);
    } else {
      RayTargets(all, their, from, 0, -1, m);
    }
  }

  /** A table move of a knight or king goes to a square other than its
      origin that is empty or enemy. */
  lemma StepTargets(kind: int, all: Bitboard, their: Bitboard, from: int, m: Move)
    requires (kind == 1 || kind == 5) && IsSquare(from) && m in PieceMoves(kind, all, their, from)
    ensures m.from == from && m.promo == 0 && m.flags == 0 && IsSquare(m.to) && m.to != from
    ensures !Has(all, m.to) || Has(their, m.to)
  {
    if kind == 1 {
      StepMovesHas(from, KnightMask(from), all, their, m);
      KnightMaskSquares(from);
    } else {
      StepMovesHas(from, KingMask(from), all, their, m);
      KingMaskSquares(from);
    }
  }

  lemma PieceMovesEmitted(p: Position, all: Bitboard, their: Bitboard, kind: int, from: int, m: Move)
    requires Shaped(p) && 1 <= kind <= 5 && IsSquare(from) && Has(p.pcs[PieceOf(p.stm, kind)], from)
    requires m in PieceMoves(kind, all, their, from)
    ensures PlainMove(p, all, their, m, kind)
  {
    if kind == 1 || kind == 5 {
      StepTargets(kind, all, their, from, m);
    } else if kind == 2 {
      DiagonalTargets(all, their, from, m);
    } else if kind == 3 {
      StraightTargets(all, their, from, m);
    } else if m in DiagonalMoves(all, their, from) {
      DiagonalTargets(all, their, from, m);
    } else {
      StraightTargets(all, their, from, m);
    }
  }

  /** A move of a sweep over `pieces` is a move of one of its pieces. */
  lemma {:induction false} SweepOrigin(kind: int, all: Bitboard, their: Bitboard, pieces: Bitboard, m: Move)
    returns (from: int)
    requires 1 <= kind <= 5 && m in Sweep(kind, all, their, pieces)
    ensures IsSquare(from) && Has(pieces, from) && m in PieceMoves(kind, all, their, from)
    decreases |Squares(pieces)|
  {
    ClearLowest(pieces);
    if m in PieceMoves(kind, all, their, Lsb(pieces)) {
      from := Lsb(pieces);
    } else {
      from := SweepOrigin(kind, all, their, pieces & (pieces - 1), m);
      assert from in Squares(pieces & (pieces - 1));
    }
  }

  lemma SweepOf(p: Position, all: Bitboard, their: Bitboard, kind: int, m: Move)
    requires Shaped(p) && 1 <= kind <= 4
    requires m in Sweep(kind, all, their, p.pcs[PieceOf(p.stm, kind)])
    ensures PlainMove(p, all, their, m, kind)
  {
    var from := SweepOrigin(kind, all, their, p.pcs[PieceOf(p.stm, kind)], m);
    PieceMovesEmitted(p, all, their, kind, from, m);
  }

  // ---------------------------------------------------------------------
  // Every pseudo-legal move can be made

  /** The shape of every move the generator emits: no promotion piece, and
      no flag but en passant (with capture) or castling; ordinary captures
      and double pushes carry no flag. */
  predicate Emitted(m: Move)
  {
    m.promo == 0 && (m.flags == MF_NONE || m.flags == EP_FLAGS || m.flags == MF_CASTLE)
  }

  /** A piece move of kind `kind` in a sound position with its occupancy
      can be made, and a double push jumps over an empty square. */
  lemma PlainFine(p: Position, occ: seq<Bitboard>, all: Bitboard, m: Move, kind: int)
    requires Sound(p) && OccupancyOf(p.pcs, occ, all) && 0 <= kind < 6
    requires PlainMove(p, all, Their(p, occ), m, kind)
    ensures Playable(p, m) && JumpClear(p, m) && Emitted(m)
  {
    PieceAtHolder(p.pcs, m.from, PieceOf(p.stm, kind));
    OccAllHas(p.pcs, occ, all, m.to);
    OccSideHas(p.pcs, occ, all, Other(p.stm), m.to);
    var e := EpAfter(PieceOf(p.stm, kind), m.from, m.to);
    if e != -1 {
      OccAllHas(p.pcs, occ, all, e);
    }
  }

  /** An en-passant capture in a sound position can be made. */
  lemma EpFine(p: Position, m: Move)
    requires Sound(p) && EpMove(p, m)
    ensures Playable(p, m) && JumpClear(p, m) && Emitted(m)
  {
    PieceAtHolder(p.pcs, m.from, PieceOf(p.stm, 0));
  }

  /** A castling move towards right `k` can be made: the king stands on
      its home square, the target and the rook's landing square are empty
      and the rook stands on its corner. */
  lemma CastleSideFine(p: Position, occ: seq<Bitboard>, all: Bitboard, m: Move, k: int)
    requires Sound(p) && OccupancyOf(p.pcs, occ, all) && 0 <= k < 4
    requires k / 2 == (if p.stm == White then 0 else 1)
    requires m.from == KingHome(p.stm) && m.promo == 0 && m.flags == MF_CASTLE
    requires m.to == KingHome(p.stm) + (if k % 2 == 0 then 2 else -2)
    requires Has(p.pcs[PieceOf(p.stm, 5)], m.from) && CastleOk(p.pcs, p.castle, all, p.stm, k)
    ensures Playable(p, m) && JumpClear(p, m) && Emitted(m)
  {
    var dir := if k % 2 == 0 then 1 else -1;
    PieceAtHolder(p.pcs, m.from, PieceOf(p.stm, 5));
    PieceAtHolder(p.pcs, Corner(k), PieceOf(p.stm, 3));
    OccAllHas(p.pcs, occ, all, m.to);
    OccAllHas(p.pcs, occ, all, m.from + dir);
  }

  lemma CastleFine(p: Position, occ: seq<Bitboard>, all: Bitboard, m: Move)
    requires Sound(p) && OccupancyOf(p.pcs, occ, all) && CastleMove(p, all, m)
    ensures Playable(p, m) && JumpClear(p, m) && Emitted(m)
  {
    var k := if p.stm == White then 0 else 2;
    if m.to == KingHome(p.stm) + 2 && CastleOk(p.pcs, p.castle, all, p.stm, k) {
      CastleSideFine(p, occ, all, m, k);
    } else {
      CastleSideFine(p, occ, all, m, k + 1);
    }
  }

  lemma PawnFine(p: Position, occ: seq<Bitboard>, all: Bitboard, m: Move)
    requires Sound(p) && OccupancyOf(p.pcs, occ, all)
    requires m in PawnMoves(p.stm, p.pcs[PieceOf(p.stm, 0)], all, Their(p, occ))
    ensures Playable(p, m) && JumpClear(p, m) && Emitted(m)
  {
    PawnMovesEmitted(p, all, Their(p, occ), m);
    PlainFine(p, occ, all, m, 0);
  }

  lemma SweepFine(p: Position, occ: seq<Bitboard>, all: Bitboard, m: Move, kind: int)
    requires Sound(p) && OccupancyOf(p.pcs, occ, all) && 1 <= kind <= 4
    requires m in Sweep(kind, all, Their(p, occ), p.pcs[PieceOf(p.stm, kind)])
    ensures Playable(p, m) && JumpClear(p, m) && Emitted(m)
  {
    SweepOf(p, all, Their(p, occ), kind, m);
    PlainFine(p, occ, all, m, kind);
  }

  lemma KingFine(p: Position, occ: seq<Bitboard>, all: Bitboard, m: Move)
    requires Sound(p) && OccupancyOf(p.pcs, occ, all) && p.pcs[PieceOf(p.stm, 5)] != 0
    requires m in PieceMoves(5, all, Their(p, occ), Lsb(p.pcs[PieceOf(p.stm, 5)]))
    ensures Playable(p, m) && JumpClear(p, m) && Emitted(m)
  {
    var king := p.pcs[PieceOf(p.stm, 5)];
    assert Lsb(king) in Squares(king);
    PieceMovesEmitted(p, all, Their(p, occ), 5, Lsb(king), m);
    PlainFine(p, occ, all, m, 5);
  }

  lemma PawnEpFine(p: Position, occ: seq<Bitboard>, all: Bitboard, m: Move)
    requires Sound(p) && Generable(p) && OccupancyOf(p.pcs, occ, all)
    requires m in PawnMoves(p.stm, p.pcs[PieceOf(p.stm, 0)], all, Their(p, occ))
      || m in EpMoves(p.stm, p.pcs[PieceOf(p.stm, 0)], p.ep)
    ensures Playable(p, m) && JumpClear(p, m) && Emitted(m)
  {
    if m in PawnMoves(p.stm, p.pcs[PieceOf(p.stm, 0)], all, Their(p, occ)) {
      PawnFine(p, occ, all, m);
    } else {
      EpMovesHas(p.stm, p.pcs[PieceOf(p.stm, 0)], p.ep, m);
      EpFine(p, m);
    }
  }

  lemma KingCastleFine(p: Position, occ: seq<Bitboard>, all: Bitboard, m: Move)
    requires Sound(p) && Generable(p) && OccupancyOf(p.pcs, occ, all)
    requires m in PieceMoves(5, all, Their(p, occ), Lsb(p.pcs[PieceOf(p.stm, 5)])) || m in CastleMoves(p, all)
    ensures Playable(p, m) && JumpClear(p, m) && Emitted(m)
  {
    if m in PieceMoves(5, all, Their(p, occ), Lsb(p.pcs[PieceOf(p.stm, 5)])) {
      KingFine(p, occ, all, m);
    } else {
      CastleMovesHas(p, all, m);
      CastleFine(p, occ, all, m);
    }
  }

  /** Every move the generator pushes can be made in a sound position,
      and leaves it sound. */
  lemma PseudoFine(p: Position, occ: seq<Bitboard>, all: Bitboard, m: Move)
    requires Sound(p) && Generable(p) && OccupancyOf(p.pcs, occ, all) && m in Pseudo(p, occ, all)
    ensures Playable(p, m) && JumpClear(p, m) && Emitted(m)
  {
    var c, pcs, their := p.stm, p.pcs, Their(p, occ);
    if m in PawnMoves(c, pcs[PieceOf(c, 0)], all, their) || m in EpMoves(c, pcs[PieceOf(c, 0)], p.ep) {
      PawnEpFine(p, occ, all, m);
    } else if m in Sweep(1, all, their, pcs[PieceOf(c, 1)]) {
      SweepFine(p, occ, all, m, 1);
    } else if m in Sweep(2, all, their, pcs[PieceOf(c, 2)]) {
      SweepFine(p, occ, all, m, 2);
    } else if m in Sweep(3, all, their, pcs[PieceOf(c, 3)]) {
      SweepFine(p, occ, all, m, 3);
    } else if m in Sweep(4, all, their, pcs[PieceOf(c, 4)]) {
      SweepFine(p, occ, all, m, 4);
    } else {
      KingCastleFine(p, occ, all, m);
    }
  }

  // ---------------------------------------------------------------------
  // The legality filter and perft

  /** A move the filter keeps: it can be made, and after it the side that
      made it is not in check (the occupancy `set_occ` leaves behind). */
  predicate Legal(p: Position, m: Move)
  {
    CanMake(p, m) && !InCheckWith(Make(p, m).pcs, AllOcc(Make(p, m).pcs), p.stm)
  }

  /** The moves of `l` the filter keeps, in the order they were pushed. */
  function Filter(p: Position, l: seq<Move>): seq<Move>
  {
    if l == [] then []
    else Filter(p, l[..|l| - 1]) + (if Legal(p, l[|l| - 1]) then [l[|l| - 1]] else [])
  }

  /** The filter keeps exactly the legal moves of its input. */
  lemma {:induction false} FilterHas(p: Position, l: seq<Move>, m: Move)
    ensures m in Filter(p, l) <==> m in l && Legal(p, m)
  {
    if l != [] {
      var init := l[..|l| - 1];
      FilterHas(p, init, m);
      assert l == init + [l[|l| - 1]];
    }
  }

  /** The filter never reorders: what it keeps of a concatenation is what it
      keeps of each part, one after the other. */
  lemma {:induction false} FilterAppend(p: Position, l: seq<Move>, r: seq<Move>)
    ensures Filter(p, l + r) == Filter(p, l) + Filter(p, r)
    decreases |r|
  {
    if r == [] {
      assert l + r == l;
    } else {
      var init := r[..|r| - 1];
      assert (l + r)[..|l + r| - 1] == l + init;
      FilterAppend(p, l, init);
    }
  }

  /** The occupancy `set_occ` derives from the pieces. */
  function OccOf(pcs: seq<Bitboard>): seq<Bitboard>
    requires |pcs| == 12
  {
    [SideUnion(pcs, White), SideUnion(pcs, Black)]
  }

  /** `OccOf` is the occupancy of the pieces. */
  lemma OccOfFine(pcs: seq<Bitboard>)
    requires |pcs| == 12
    ensures OccupancyOf(pcs, OccOf(pcs), AllOcc(pcs))
  {
    SideUnionSquares(pcs, White);
    SideUnionSquares(pcs, Black);
  }

  /** What `generateMoves` returns: the pushed moves that are legal. */
  function Generated(p: Position): seq<Move>
    requires Generable(p)
  {
    GeneratedAfter(p, 1)
  }

  /** `Generated` behind `n` trivial steps, so that its body is unfolded
      only where a proof asks for it (`GeneratedIs`) and not in every
      method that mentions the move list. */
  function GeneratedAfter(p: Position, n: nat): seq<Move>
    requires Generable(p)
    decreases n, p
  {
    if n == 0 then Filter(p, Pseudo(p, OccOf(p.pcs), AllOcc(p.pcs))) else GeneratedAfter(p, n - 1)
  }

  /** The legal moves are the pseudo-legal ones the filter keeps. */
  lemma GeneratedIs(p: Position)
    requires Generable(p)
    ensures Generated(p) == Filter(p, Pseudo(p, OccOf(p.pcs), AllOcc(p.pcs)))
  {
    assert GeneratedAfter(p, 1) == GeneratedAfter(p, 0);
  }

  /** Every generated move can be made and unmade, keeps a sound position
      sound and leaves the mover out of check. */
  lemma GeneratedFine(p: Position, m: Move)
    requires Sound(p) && Generable(p) && m in Generated(p)
    ensures Playable(p, m) && JumpClear(p, m) && Legal(p, m) && Sound(Make(p, m)) && Emitted(m)
  {
    GeneratedIs(p);
    FilterHas(p, Pseudo(p, OccOf(p.pcs), AllOcc(p.pcs)), m);
    OccOfFine(p.pcs);
    PseudoFine(p, OccOf(p.pcs), AllOcc(p.pcs), m);
    MakeSound(p, m);
  }

  /** `p` is sound, and so is every position reached from it by at most `d`
      generated moves; all of them but the last have the king of the side
      to move, which the generator reads with `lsb`. */
  ghost predicate Searchable(p: Position, d: nat): (r: bool)
    ensures r ==> Sound(p) && (d != 0 ==> Generable(p))
    decreases d, 1
  {
    SearchableAfter(p, d, 1)
  }

  /** `Searchable` behind `n` trivial steps, so that its quantifier over
      the generated moves is unfolded only where a proof asks for it
      (`SearchableIs`). */
  ghost predicate SearchableAfter(p: Position, d: nat, n: nat): (r: bool)
    ensures r ==> Sound(p) && (d != 0 ==> Generable(p))
    decreases d, 0, n
  {
    if n == 0 then
      Sound(p)
      && (d == 0
          || (Generable(p)
              && forall m :: m in Generated(p) && CanMake(p, m) ==> Searchable(Make(p, m), d - 1)))
    else SearchableAfter(p, d, n - 1)
  }

  /** A position is searchable `d` plies deep when it is sound and, unless
      `d` is 0, every generated move makes a position searchable one ply
      less deep. */
  lemma SearchableIs(p: Position, d: nat)
    ensures Searchable(p, d)
        <==> Sound(p)
             && (d == 0
                 || (Generable(p)
                     && forall m :: m in Generated(p) && CanMake(p, m) ==> Searchable(Make(p, m), d - 1)))
  {
    assert SearchableAfter(p, d, 1) == SearchableAfter(p, d, 0);
  }

  /** A generated move of a searchable position can be made, and the
      position it makes is searchable one ply less deep. */
  lemma SearchableChild(p: Position, d: nat, m: Move)
    requires 0 < d && Searchable(p, d) && m in Generated(p)
    ensures CanMake(p, m) && Searchable(Make(p, m), d - 1)
  {
    SearchableIs(p, d);
    GeneratedIs(p);
    FilterHas(p, Pseudo(p, OccOf(p.pcs), AllOcc(p.pcs)), m);
  }

  /** Soundness never has to be asked for below the root: generated moves
      keep it, so a sound position whose reachable positions have their
      kings is searchable. */
  lemma {:induction false} SearchableFrom(p: Position, d: nat)
    requires Sound(p) && KingsThrough(p, d)
    ensures Searchable(p, d)
    decreases d, 2
  {
    if d != 0 {
      SearchableStep(p, d - 1);
    } else {
      SearchableIs(p, d);
    }
  }

  lemma {:induction false} SearchableStep(p: Position, e: nat)
    requires Sound(p) && KingsThrough(p, e + 1)
    ensures Searchable(p, e + 1)
    decreases e, 3
  {
    SearchableIs(p, e + 1);
    forall m | m in Generated(p) && CanMake(p, m)
      ensures Searchable(Make(p, m), e)
    {
      GeneratedFine(p, m);
      SearchableFrom(Make(p, m), e);
    }
  }

  /** Every position reached by at most `d` generated moves, except the
      last ones, has the king of its side to move. */
  ghost predicate KingsThrough(p: Position, d: nat)
    decreases d
  {
    d == 0
    || (Generable(p)
        && forall m :: m in Generated(p) && CanMake(p, m) ==> KingsThrough(Make(p, m), d - 1))
  }

  /** The number of leaf positions `perft` counts at `depth`. */
  ghost function Perft(p: Position, depth: nat): nat
    requires Searchable(p, depth)
    decreases depth, 2, 0
  {
    if depth == 0 then 1 else SumPerft(p, |Generated(p)|, depth)
  }

  /** The sum of `ChildPerft(p, m, depth - 1)` over the first `n` generated
      moves `m` of `p`, in generation order. */
  ghost function SumPerft(p: Position, n: nat, depth: nat): nat
    requires 0 < depth && Searchable(p, depth) && n <= |Generated(p)|
    decreases depth, 1, n
  {
    if n == 0 then 0
    else
      SearchableBelow(p, depth);
      SumPerft(p, n - 1, depth) + ChildPerft(p, Generated(p)[n - 1], depth - 1)
  }

  lemma SearchableBelow(p: Position, depth: nat)
    requires 0 < depth && Searchable(p, depth)
    ensures Searchable(p, depth - 1 + 1)
  {
  }

  /** What `perft` one ply above `d` adds for the generated move `m`: the
      count at `d` below the position `m` makes. */
  ghost function ChildPerft(p: Position, m: Move, d: nat): nat
    requires Searchable(p, d + 1) && m in Generated(p)
    decreases d + 1, 0, 0
  {
    SearchableChild(p, d + 1, m);
    Perft(Make(p, m), d)
  }

  /** The perft sum over the first `i + 1` generated moves. */
  lemma SumPerftNext(p: Position, i: nat, d: nat)
    requires Searchable(p, d + 1) && i < |Generated(p)|
    ensures SumPerft(p, i + 1, d + 1)
         == SumPerft(p, i, d + 1) + ChildPerft(p, Generated(p)[i], d)
  {
    assert i + 1 - 1 == i && d + 1 - 1 == d;
  }

  /** The count below a generated move is perft of the position it makes. */
  lemma ChildPerftIs(p: Position, m: Move, d: nat)
    requires Searchable(p, d + 1) && m in Generated(p)
    requires CanMake(p, m) && Searchable(Make(p, m), d)
    ensures ChildPerft(p, m, d) == Perft(Make(p, m), d)
  {
  }

  /** `perft` at depth 0 counts the position itself. */
  lemma PerftZero(p: Position)
    requires Sound(p)
    ensures Searchable(p, 0) && Perft(p, 0) == 1
  {
    SearchableIs(p, 0);
  }

  /** `perft` at depth 1 counts the generated moves. */
  lemma PerftOne(p: Position)
    requires Searchable(p, 1)
    ensures Perft(p, 1) == |Generated(p)|
  {
    SumPerftOnes(p, |Generated(p)|);
  }

  lemma {:induction false} SumPerftOnes(p: Position, n: nat)
    requires Searchable(p, 1) && n <= |Generated(p)|
    ensures SumPerft(p, n, 1) == n
  {
    if n != 0 {
      SumPerftOnes(p, n - 1);
    }
  }
}
