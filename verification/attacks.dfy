/**
 * Which squares a side attacks (src/movegen.cpp, src/board.cpp): board
 * geometry by rank and file, the knight and king attack masks, rays that stop
 * at the first occupied square, and the attack test both `attackedBy` and
 * `inCheck` perform.  The masks are built in the order the source builds
 * them and are related to a geometric description of knight and king moves.
 */
module Attacks {
  import opened Bits
  import opened Types

  function Abs(x: int): nat { if x < 0 then -x else x }

  /** Rank and file both within 0..7. */
  predicate OnBoard(r: int, f: int) { 0 <= r < 8 && 0 <= f < 8 }

  /** The square on rank `r`, file `f`. */
  function Sq(r: int, f: int): int { r * 8 + f }

  lemma SqParts(r: int, f: int)
    requires OnBoard(r, f)
    ensures IsSquare(Sq(r, f)) && Rank(Sq(r, f)) == r && File(Sq(r, f)) == f
  {}

  /** A square is the square of its own rank and file. */
  lemma SquareParts(sq: int)
    requires IsSquare(sq)
    ensures OnBoard(Rank(sq), File(sq)) && Sq(Rank(sq), File(sq)) == sq
  {}

  // ---------------------------------------------------------------------
  // Knight and king moves

  /** Two squares a knight's move apart. */
  predicate KnightJump(s: int, t: int)
  {
    IsSquare(s) && IsSquare(t)
    && var dr, df := Abs(Rank(t) - Rank(s)), Abs(File(t) - File(s));
    (dr == 1 && df == 2) || (dr == 2 && df == 1)
  }

  /** Two different squares a king's step apart. */
  predicate KingStep(s: int, t: int)
  {
    IsSquare(s) && IsSquare(t) && s != t
    && Abs(Rank(t) - Rank(s)) <= 1 && Abs(File(t) - File(s)) <= 1
  }

  lemma KnightJumpSymmetric(s: int, t: int)
    ensures KnightJump(s, t) <==> KnightJump(t, s)
  {}

  lemma KingStepSymmetric(s: int, t: int)
    ensures KingStep(s, t) <==> KingStep(t, s)
  {}

  /** The knight offsets, in the order `initKnight` and `inCheck` try them. */
  const KnightDR: seq<int> := [2, 2, -2, -2, 1, 1, -1, -1]
  const KnightDF: seq<int> := [1, -1, 1, -1, 2, -2, 2, -2]

  /** The square the `i`-th knight offset reaches from `sq`, or -1 off the
      board. */
  function KnightTarget(sq: int, i: int): (t: int)
    requires IsSquare(sq) && 0 <= i < 8
    ensures t == -1 || IsSquare(t)
  {
    var r, f := Rank(sq) + KnightDR[i], File(sq) + KnightDF[i];
    if OnBoard(r, f) then Sq(r, f) else -1
  }

  /** The square at offset (dr, df) of the 3 x 3 grid around `sq`, or -1
      for the centre and off the board. */
  function KingTarget(sq: int, dr: int, df: int): (t: int)
    requires IsSquare(sq) && -1 <= dr <= 1 && -1 <= df <= 1
    ensures t == -1 || IsSquare(t)
  {
    var r, f := Rank(sq) + dr, File(sq) + df;
    if !(dr == 0 && df == 0) && OnBoard(r, f) then Sq(r, f) else -1
  }

  /** The knight targets are exactly the squares a knight's move away. */
  lemma KnightTargets(sq: int, t: int)
    requires IsSquare(sq)
    ensures KnightJump(sq, t) <==> exists i :: 0 <= i < 8 && KnightTarget(sq, i) == t && t != -1
  {
    if KnightJump(sq, t) {
      var i := KnightIndex(sq, t);
    } else if exists i :: 0 <= i < 8 && KnightTarget(sq, i) == t && t != -1 {
      var i :| 0 <= i < 8 && KnightTarget(sq, i) == t && t != -1;
      KnightTargetJumps(sq, i);
      assert false;
    }
  }

  /** The offset that carries `sq` a knight's move to `t`. */
  lemma KnightIndex(sq: int, t: int) returns (i: int)
    requires IsSquare(sq) && KnightJump(sq, t)
    ensures 0 <= i < 8 && KnightTarget(sq, i) == t && t != -1
  {
    SquareParts(t);
    var dr, df := Rank(t) - Rank(sq), File(t) - File(sq);
    i := if dr == 2 && df == 1 then 0 else if dr == 2 then 1
      else if dr == -2 && df == 1 then 2 else if dr == -2 then 3
      else if dr == 1 && df == 2 then 4 else if dr == 1 then 5
      else if df == 2 then 6 else 7;
    assert KnightDR[i] == dr && KnightDF[i] == df;
  }

  /** Each knight target on the board is a knight's move away. */
  lemma KnightTargetJumps(sq: int, i: int)
    requires IsSquare(sq) && 0 <= i < 8 && KnightTarget(sq, i) != -1
    ensures KnightJump(sq, KnightTarget(sq, i))
  {
    SqParts(Rank(sq) + KnightDR[i], File(sq) + KnightDF[i]);
  }

  /** The king targets are exactly the squares a king's step away. */
  lemma KingTargets(sq: int, t: int)
    requires IsSquare(sq)
    ensures KingStep(sq, t) <==>
      exists dr, df :: -1 <= dr <= 1 && -1 <= df <= 1 && KingTarget(sq, dr, df) == t && t != -1
  {
    if KingStep(sq, t) {
      assert KingTarget(sq, Rank(t) - Rank(sq), File(t) - File(sq)) == t;
    }
  }

  /** `mask` with square `t` added, or `mask` itself when `t` is -1 (a
      target off the board). */
  function AddTarget(mask: Bitboard, t: int): Bitboard
    requires t == -1 || IsSquare(t)
  {
    if t == -1 then mask else mask | Bit(t)
  }

  lemma AddTargetHas(mask: Bitboard, u: int, t: int)
    requires (u == -1 || IsSquare(u)) && IsSquare(t)
    ensures Has(AddTarget(mask, u), t) <==> Has(mask, t) || u == t
  {
    if u != -1 {
      SetHas(mask, u, t);
    }
  }

  /** The mask `initKnight` has built after trying the first `k` offsets. */
  function KnightUpTo(sq: int, k: int): Bitboard
    requires IsSquare(sq) && 0 <= k <= 8
    decreases k, sq
  {
    if k == 0 then 0
    else
      AddTarget(KnightUpTo(sq, k - 1), KnightTarget(sq, k - 1))
  }

  /** Cell (d, e) of the grid comes before cell (dr, df) in the row-by-row
      order of the loops of `initKing`. */
  predicate Before(d: int, e: int, dr: int, df: int)
  {
    d < dr || (d == dr && e < df)
  }

  /** The mask `initKing` has built when it reaches cell (dr, df) of the
      grid; row 2 column -1 is the end of the last row. */
  function KingBefore(sq: int, dr: int, df: int): Bitboard
    requires IsSquare(sq) && -1 <= dr <= 2 && -1 <= df <= 2 && (dr == 2 ==> df == -1)
    decreases dr + 1, df + 1, sq
  {
    if df == -1 then
      if dr == -1 then 0 else KingBefore(sq, dr - 1, 2)
    else
      AddTarget(KingBefore(sq, dr, df - 1), KingTarget(sq, dr, df - 1))
  }

  /** `knightAttacks[sq]`. */
  function KnightMask(sq: int): Bitboard
    requires IsSquare(sq)
  {
    KnightUpTo(sq, |KnightDR|)
  }

  /** `kingAttacks[sq]`. */
  function KingMask(sq: int): Bitboard
    requires IsSquare(sq)
  {
    KingBefore(sq, 2, -1)
  }

  lemma {:induction false} KnightUpToHas(sq: int, k: int, t: int)
    requires IsSquare(sq) && 0 <= k <= 8 && IsSquare(t)
    ensures Has(KnightUpTo(sq, k), t) <==> exists i :: 0 <= i < k && KnightTarget(sq, i) == t
  {
    if k == 0 {
      ZeroAt(Index(t));
    } else {
      KnightUpToHas(sq, k - 1, t);
      AddTargetHas(KnightUpTo(sq, k - 1), KnightTarget(sq, k - 1), t);
    }
  }

  lemma {:induction false} KingBeforeHas(sq: int, dr: int, df: int, t: int)
    requires IsSquare(sq) && -1 <= dr <= 2 && -1 <= df <= 2 && (dr == 2 ==> df == -1) && IsSquare(t)
    ensures Has(KingBefore(sq, dr, df), t) <==>
      exists d, e :: -1 <= d <= 1 && -1 <= e <= 1 && Before(d, e, dr, df) && KingTarget(sq, d, e) == t
    decreases dr + 1, df + 1
  {
    if df == -1 {
      if dr == -1 {
        ZeroAt(Index(t));
      } else {
        KingBeforeHas(sq, dr - 1, 2, t);
        KingRowEnd(sq, dr, t);
      }
    } else {
      KingBeforeHas(sq, dr, df - 1, t);
      KingCellStep(sq, dr, df, t);
    }
  }

  /** The cells before the start of row `dr` are those before the end of the
      row above. */
  lemma KingRowEnd(sq: int, dr: int, t: int)
    requires IsSquare(sq) && 0 <= dr <= 2 && IsSquare(t)
    requires Has(KingBefore(sq, dr - 1, 2), t) <==>
      exists d, e :: -1 <= d <= 1 && -1 <= e <= 1 && Before(d, e, dr - 1, 2) && KingTarget(sq, d, e) == t
    ensures Has(KingBefore(sq, dr, -1), t) <==>
      exists d, e :: -1 <= d <= 1 && -1 <= e <= 1 && Before(d, e, dr, -1) && KingTarget(sq, d, e) == t
  {}

  /** Visiting cell (dr, df - 1) adds its target. */
  lemma KingCellStep(sq: int, dr: int, df: int, t: int)
    requires IsSquare(sq) && -1 <= dr <= 1 && 0 <= df <= 2 && IsSquare(t)
    requires Has(KingBefore(sq, dr, df - 1), t) <==>
      exists d, e :: -1 <= d <= 1 && -1 <= e <= 1 && Before(d, e, dr, df - 1) && KingTarget(sq, d, e) == t
    ensures Has(KingBefore(sq, dr, df), t) <==>
      exists d, e :: -1 <= d <= 1 && -1 <= e <= 1 && Before(d, e, dr, df) && KingTarget(sq, d, e) == t
  {
    AddTargetHas(KingBefore(sq, dr, df - 1), KingTarget(sq, dr, df - 1), t);
  }

  /** `knightAttacks[sq]` holds exactly the squares a knight's move away: never
      `sq` itself, and `t` is in the mask of `s` exactly when `s` is in the
      mask of `t`. */
  lemma KnightMaskSquares(sq: int)
    requires IsSquare(sq)
    ensures forall t :: t in Squares(KnightMask(sq)) <==> KnightJump(sq, t)
    ensures sq !in Squares(KnightMask(sq))
  {
    forall t | IsSquare(t)
      ensures Has(KnightMask(sq), t) <==> KnightJump(sq, t)
    {
      KnightUpToHas(sq, 8, t);
      KnightTargets(sq, t);
    }
  }

  /** `kingAttacks[sq]` holds exactly the squares a king's step away. */
  lemma KingMaskSquares(sq: int)
    requires IsSquare(sq)
    ensures forall t :: t in Squares(KingMask(sq)) <==> KingStep(sq, t)
    ensures sq !in Squares(KingMask(sq))
  {
    forall t | IsSquare(t)
      ensures Has(KingMask(sq), t) <==> KingStep(sq, t)
    {
      KingBeforeHas(sq, 2, -1, t);
      KingTargets(sq, t);
    }
  }

  /** Membership in the knight masks is symmetric. */
  lemma KnightMaskSymmetric(s: int, t: int)
    requires IsSquare(s) && IsSquare(t)
    ensures t in Squares(KnightMask(s)) <==> s in Squares(KnightMask(t))
  {
    KnightMaskSquares(s);
    KnightMaskSquares(t);
  }

  /** Membership in the king masks is symmetric. */
  lemma KingMaskSymmetric(s: int, t: int)
    requires IsSquare(s) && IsSquare(t)
    ensures t in Squares(KingMask(s)) <==> s in Squares(KingMask(t))
  {
    KingMaskSquares(s);
    KingMaskSquares(t);
  }

  // ---------------------------------------------------------------------
  // Rays

  /** A step of a ray: one of the eight neighbouring directions. */
  predicate Direction(dr: int, df: int)
  {
    -1 <= dr <= 1 && -1 <= df <= 1 && (dr != 0 || df != 0)
  }

  /** How many more steps a ray walking from (r, f) can take on the board. */
  function Room(r: int, f: int, dr: int, df: int): int
  {
    if dr == 1 then 8 - r else if dr == -1 then r + 1 else if df == 1 then 8 - f else f + 1
  }

  /** The first square of `occ` met walking from (r, f) in direction
      (dr, df), (r, f) included; -1 when the ray leaves the board first. */
  function Blocker(occ: Bitboard, r: int, f: int, dr: int, df: int): (s: int)
    requires Direction(dr, df)
    ensures s == -1 || IsSquare(s)
    decreases Room(r, f, dr, df)
  {
    if !OnBoard(r, f) then -1
    else if Has(occ, Sq(r, f)) then Sq(r, f)
    else Blocker(occ, r + dr, f + df, dr, df)
  }

  /** Walking from the square next to `sq` in direction (dr, df), the first
      occupied square holds a piece of `a` or `b`. */
  predicate RayAttack(occ: Bitboard, a: Bitboard, b: Bitboard, sq: int, dr: int, df: int)
    requires IsSquare(sq) && Direction(dr, df)
  {
    var s := Blocker(occ, Rank(sq) + dr, File(sq) + df, dr, df);
    s != -1 && (Has(a, s) || Has(b, s))
  }

  /** The diagonal and the straight directions, in the order `attackedBy`
      and `inCheck` walk them. */
  const DiagDR: seq<int> := [1, 1, -1, -1]
  const DiagDF: seq<int> := [1, -1, 1, -1]
  const LineDR: seq<int> := [1, -1, 0, 0]
  const LineDF: seq<int> := [0, 0, 1, -1]

  /** A bishop or queen of `a`/`b` sees `sq` along a diagonal. */
  predicate DiagonalAttack(occ: Bitboard, a: Bitboard, b: Bitboard, sq: int)
    requires IsSquare(sq)
  {
    exists d :: 0 <= d < 4 && RayAttack(occ, a, b, sq, DiagDR[d], DiagDF[d])
  }

  /** A rook or queen of `a`/`b` sees `sq` along a rank or file. */
  predicate StraightAttack(occ: Bitboard, a: Bitboard, b: Bitboard, sq: int)
    requires IsSquare(sq)
  {
    exists d :: 0 <= d < 4 && RayAttack(occ, a, b, sq, LineDR[d], LineDF[d])
  }

  // ---------------------------------------------------------------------
  // Attacks by pawns, knights and kings

  /** A pawn of `side` on `s` captures onto `sq`: one rank forward for `side`,
      one file to either side. */
  predicate PawnAttacker(side: Color, s: int, sq: int)
  {
    IsSquare(s) && IsSquare(sq) && Abs(File(s) - File(sq)) == 1
    && Rank(sq) == Rank(s) + (if side == White then 1 else -1)
  }

  predicate PawnAttack(pawns: Bitboard, side: Color, sq: int)
  {
    exists s :: 0 <= s < 64 && PawnAttacker(side, s, sq) && Has(pawns, s)
  }

  predicate KnightAttack(knights: Bitboard, sq: int)
  {
    exists s :: 0 <= s < 64 && KnightJump(sq, s) && Has(knights, s)
  }

  predicate KingAttack(kings: Bitboard, sq: int)
  {
    exists s :: 0 <= s < 64 && KingStep(sq, s) && Has(kings, s)
  }

  /** The squares pawns of `side` capture onto, as `attackedBy` and `inCheck`
      shift them: White's up-left (not from the a-file) by 7 and up-right
      (not from the h-file) by 9, Black's mirrored. */
  function PawnMask(pawns: Bitboard, side: Color): Bitboard
  {
    match side
    case White => UpLeft(pawns) | UpRight(pawns)
    case Black => DownRight(pawns) | DownLeft(pawns)
  }

  /** White's captures towards the a-file: `(pawns & ~FILE_A) << 7`. */
  function UpLeft(pawns: Bitboard): Bitboard
  {
    (pawns & !FILE_A) << 7
  }

  /** White's captures towards the h-file: `(pawns & ~FILE_H) << 9`. */
  function UpRight(pawns: Bitboard): Bitboard
  {
    (pawns & !FILE_H) << 9
  }

  /** Black's captures towards the h-file: `(pawns & ~FILE_H) >> 7`. */
  function DownRight(pawns: Bitboard): Bitboard
  {
    (pawns & !FILE_H) >> 7
  }

  /** Black's captures towards the a-file: `(pawns & ~FILE_A) >> 9`. */
  function DownLeft(pawns: Bitboard): Bitboard
  {
    (pawns & !FILE_A) >> 9
  }

  /** The shifted pawn mask holds exactly the squares a pawn captures onto. */
  lemma PawnMaskHas(pawns: Bitboard, side: Color, sq: int)
    requires IsSquare(sq)
    ensures Has(PawnMask(pawns, side), sq) <==> PawnAttack(pawns, side, sq)
  {
    if side == White {
      WhitePawnMask(pawns, sq);
    } else {
      BlackPawnMask(pawns, sq);
    }
    if PawnAttack(pawns, side, sq) {
      var s :| 0 <= s < 64 && PawnAttacker(side, s, sq) && Has(pawns, s);
      PawnAttackers(side, s, sq);
    } else {
      if 0 <= sq - 7 {
        PawnAttackers(side, sq - 7, sq);
      }
      if 0 <= sq - 9 {
        PawnAttackers(side, sq - 9, sq);
      }
      if sq + 7 < 64 {
        PawnAttackers(side, sq + 7, sq);
      }
      if sq + 9 < 64 {
        PawnAttackers(side, sq + 9, sq);
      }
    }
  }

  /** Where the pawns that capture onto `sq` stand. */
  lemma PawnAttackers(side: Color, s: int, sq: int)
    requires IsSquare(s) && IsSquare(sq)
    ensures side == White ==>
      (PawnAttacker(side, s, sq) <==> (s == sq - 7 && File(s) != 0) || (s == sq - 9 && File(s) != 7))
    ensures side == Black ==>
      (PawnAttacker(side, s, sq) <==> (s == sq + 7 && File(s) != 7) || (s == sq + 9 && File(s) != 0))
  {}

  lemma WhitePawnMaskAt(pawns: Bitboard, s: bv6)
    ensures HasAt(PawnMask(pawns, White), s) <==>
      (s >= 7 && HasAt(pawns, s - 7) && (s - 7) & 7 != 0) || (s >= 9 && HasAt(pawns, s - 9) && (s - 9) & 7 != 7)
  {
    OrAt(UpLeft(pawns), UpRight(pawns), s);
    UpLeftAt(pawns, s);
    UpRightAt(pawns, s);
  }

  lemma BlackPawnMaskAt(pawns: Bitboard, s: bv6)
    ensures HasAt(PawnMask(pawns, Black), s) <==>
      (s < 57 && HasAt(pawns, s + 7) && (s + 7) & 7 != 7) || (s < 55 && HasAt(pawns, s + 9) && (s + 9) & 7 != 0)
  {
    OrAt(DownRight(pawns), DownLeft(pawns), s);
    DownRightAt(pawns, s);
    DownLeftAt(pawns, s);
  }

  /** The four halves of the pawn masks, bit by bit. */
  lemma UpLeftAt(pawns: Bitboard, s: bv6)
    ensures HasAt(UpLeft(pawns), s) <==> s >= 7 && HasAt(pawns, s - 7) && (s - 7) & 7 != 0
  {}

  lemma UpRightAt(pawns: Bitboard, s: bv6)
    ensures HasAt(UpRight(pawns), s) <==> s >= 9 && HasAt(pawns, s - 9) && (s - 9) & 7 != 7
  {}

  lemma DownRightAt(pawns: Bitboard, s: bv6)
    ensures HasAt(DownRight(pawns), s) <==> s < 57 && HasAt(pawns, s + 7) && (s + 7) & 7 != 7
  {}

  lemma DownLeftAt(pawns: Bitboard, s: bv6)
    ensures HasAt(DownLeft(pawns), s) <==> s < 55 && HasAt(pawns, s + 9) && (s + 9) & 7 != 0
  {}

  /** Square `sq - d` or `sq + d` as a shift amount, with its file. */
  lemma Offset(sq: int, d: int)
    requires IsSquare(sq) && IsSquare(d) && IsSquare(sq + d)
    ensures Index(sq + d) == Index(sq) + Index(d) && Index(sq + d) & 7 == File(sq + d) as bv6
  {
    IndexAdd(sq, d);
    Low3(Index(sq + d));
    IndexValue(sq + d);
  }

  lemma WhitePawnMask(pawns: Bitboard, sq: int)
    requires IsSquare(sq)
    ensures Has(PawnMask(pawns, White), sq) <==>
      (sq >= 7 && Has(pawns, sq - 7) && File(sq - 7) != 0) || (sq >= 9 && Has(pawns, sq - 9) && File(sq - 9) != 7)
  {
    WhitePawnMaskAt(pawns, Index(sq));
    IndexLe(7, sq);
    IndexLe(9, sq);
    IndexValue(7);
    IndexValue(9);
    if sq >= 7 {
      Offset(sq - 7, 7);
    }
    if sq >= 9 {
      Offset(sq - 9, 9);
    }
  }

  lemma BlackPawnMask(pawns: Bitboard, sq: int)
    requires IsSquare(sq)
    ensures Has(PawnMask(pawns, Black), sq) <==>
      (sq + 7 < 64 && Has(pawns, sq + 7) && File(sq + 7) != 7) || (sq + 9 < 64 && Has(pawns, sq + 9) && File(sq + 9) != 0)
  {
    BlackPawnMaskAt(pawns, Index(sq));
    IndexValue(sq);
    IndexValue(7);
    IndexValue(9);
    if sq + 7 < 64 {
      Offset(sq, 7);
    }
    if sq + 9 < 64 {
      Offset(sq, 9);
    }
  }

  /** The squares a knight's move away from `sq`. */
  ghost function KnightSquares(sq: int): (s: set<int>)
    ensures forall t :: t in s <==> IsSquare(t) && KnightJump(sq, t)
  {
    set t | 0 <= t < 64 && KnightJump(sq, t)
  }

  lemma KnightMaskSet(sq: int)
    requires IsSquare(sq)
    ensures Squares(KnightMask(sq)) == KnightSquares(sq)
  {
    KnightMaskSquares(sq);
  }

  /** `knightAttacks[sq] & knights` is non-zero exactly when a knight of
      `knights` is a knight's move from `sq`. */
  lemma KnightMaskMeets(knights: Bitboard, sq: int)
    requires IsSquare(sq)
    ensures KnightMask(sq) & knights != 0 <==> KnightAttack(knights, sq)
  {
    KnightMaskSet(sq);
    KnightMeets(KnightMask(sq), knights, sq);
  }
  /** A mask holding exactly those squares meets `knights` when one of them
      attacks `sq`. */
  lemma KnightMeets(m: Bitboard, knights: Bitboard, sq: int)
    requires Squares(m) == KnightSquares(sq)
    ensures m & knights != 0 <==> KnightAttack(knights, sq)
  {
    MaskMeets(m, knights, KnightSquares(sq));
    KnightAttackIn(knights, sq);
  }

  /** `KnightAttack` as a square of `A` holding one of `knights`. */
  lemma KnightAttackIn(knights: Bitboard, sq: int)
    ensures KnightAttack(knights, sq) <==> exists t :: t in KnightSquares(sq) && t in Squares(knights)
  {
    if KnightAttack(knights, sq) {
      var s :| 0 <= s < 64 && KnightJump(sq, s) && Has(knights, s);
      assert s in KnightSquares(sq) && s in Squares(knights);
    }
    if exists t :: t in KnightSquares(sq) && t in Squares(knights) {
      var t :| t in KnightSquares(sq) && t in Squares(knights);
      assert 0 <= t < 64 && KnightJump(sq, t) && Has(knights, t);
    }
  }

  /** The squares a king's step away from `sq`. */
  ghost function KingSquares(sq: int): (s: set<int>)
    ensures forall t :: t in s <==> IsSquare(t) && KingStep(sq, t)
  {
    set t | 0 <= t < 64 && KingStep(sq, t)
  }

  lemma KingMaskSet(sq: int)
    requires IsSquare(sq)
    ensures Squares(KingMask(sq)) == KingSquares(sq)
  {
    KingMaskSquares(sq);
  }

  /** `kingAttacks[sq] & kings` is non-zero exactly when a king of `kings` is
      a king's step from `sq`. */
  lemma KingMaskMeets(kings: Bitboard, sq: int)
    requires IsSquare(sq)
    ensures KingMask(sq) & kings != 0 <==> KingAttack(kings, sq)
  {
    KingMaskSet(sq);
    KingMeets(KingMask(sq), kings, sq);
  }
  /** A mask holding exactly those squares meets `kings` when one of them
      attacks `sq`. */
  lemma KingMeets(m: Bitboard, kings: Bitboard, sq: int)
    requires Squares(m) == KingSquares(sq)
    ensures m & kings != 0 <==> KingAttack(kings, sq)
  {
    MaskMeets(m, kings, KingSquares(sq));
    KingAttackIn(kings, sq);
  }

  /** `KingAttack` as a square of `A` holding one of `kings`. */
  lemma KingAttackIn(kings: Bitboard, sq: int)
    ensures KingAttack(kings, sq) <==> exists t :: t in KingSquares(sq) && t in Squares(kings)
  {
    if KingAttack(kings, sq) {
      var s :| 0 <= s < 64 && KingStep(sq, s) && Has(kings, s);
      assert s in KingSquares(sq) && s in Squares(kings);
    }
    if exists t :: t in KingSquares(sq) && t in Squares(kings) {
      var t :| t in KingSquares(sq) && t in Squares(kings);
      assert 0 <= t < 64 && KingStep(sq, t) && Has(kings, t);
    }
  }

  // ---------------------------------------------------------------------
  // The attack test

  /** Side `side` attacks `sq` in the position with pieces `pcs` and
      occupancy `occ`: a pawn captures onto it, a knight or the king is a
      move away, or the first piece on one of its diagonals is a bishop or
      queen, or on one of its ranks and files a rook or queen. */
  predicate AttackedBy(pcs: seq<Bitboard>, occ: Bitboard, sq: int, side: Color)
    requires |pcs| == 12 && IsSquare(sq)
  {
    PawnAttack(pcs[PieceOf(side, 0)], side, sq)
    || KnightAttack(pcs[PieceOf(side, 1)], sq)
    || KingAttack(pcs[PieceOf(side, 5)], sq)
    || DiagonalAttack(occ, pcs[PieceOf(side, 2)], pcs[PieceOf(side, 4)], sq)
    || StraightAttack(occ, pcs[PieceOf(side, 3)], pcs[PieceOf(side, 4)], sq)
  }

  /** Side `c` is in check: it has a king, and the other side attacks the
      lowest square of its king bitboard.  No king means no check. */
  predicate InCheckWith(pcs: seq<Bitboard>, occ: Bitboard, c: Color)
    requires |pcs| == 12
  {
    var king := pcs[PieceOf(c, 5)];
    king != 0 && AttackedBy(pcs, occ, Lsb(king), Other(c))
  }

  // ---------------------------------------------------------------------
  // The loops of initKnight, initKing, attackedBy and inCheck

  /** `initKnight`: fill the table with each square's knight mask. */
  method InitKnight(a: array<Bitboard>)
    requires a.Length == 64
    modifies a
    ensures forall sq :: 0 <= sq < 64 ==> a[sq] == KnightMask(sq)
  {
    var sq := 0;
    while sq < 64
      invariant 0 <= sq <= 64
      invariant forall s :: 0 <= s < sq ==> a[s] == KnightMask(s)
    {
      a[sq] := KnightMaskOf(sq);
      sq := sq + 1;
    }
  }

  /** The inner loop of `initKnight`: try the offsets in order and add the
      targets that stay on the board. */
  method KnightMaskOf(sq: int) returns (mask: Bitboard)
    requires IsSquare(sq)
    ensures mask == KnightMask(sq)
  {
    var r, f := sq / 8, sq % 8;
    mask := 0;
    var k := 0;
    while k < 8
      invariant 0 <= k <= 8
      invariant mask == KnightUpTo(sq, k)
    {
      mask := AddKnightTarget(sq, r, f, k, mask);
      k := k + 1;
    }
  }

  /** The body of the inner loop of `initKnight`: add the target of offset
      `k` when it stays on the board. */
  method AddKnightTarget(sq: int, r: int, f: int, k: int, mask: Bitboard) returns (next: Bitboard)
    requires IsSquare(sq) && r == sq / 8 && f == sq % 8 && 0 <= k < 8
    ensures next == AddTarget(mask, KnightTarget(sq, k))
  {
    var rr, ff := r + KnightDR[k], f + KnightDF[k];
    if rr >= 0 && rr < 8 && ff >= 0 && ff < 8 {
      next := mask | Bit(rr * 8 + ff);
    } else {
      next := mask;
    }
  }

  /** `initKing`: fill the table with each square's king mask. */
  method InitKing(a: array<Bitboard>)
    requires a.Length == 64
    modifies a
    ensures forall sq :: 0 <= sq < 64 ==> a[sq] == KingMask(sq)
  {
    var sq := 0;
    while sq < 64
      invariant 0 <= sq <= 64
      invariant forall s :: 0 <= s < sq ==> a[s] == KingMask(s)
    {
      a[sq] := KingMaskOf(sq);
      sq := sq + 1;
    }
  }

  /** The nested loops of `initKing`: visit the 3 x 3 grid row by row. */
  method KingMaskOf(sq: int) returns (mask: Bitboard)
    requires IsSquare(sq)
    ensures mask == KingMask(sq)
  {
    mask := 0;
    var dr := -1;
    while dr <= 1
      invariant -1 <= dr <= 2
      invariant mask == KingBefore(sq, dr, -1)
    {
      mask := AddKingRow(sq, dr, mask);
      dr := dr + 1;
    }
  }

  /** The inner loop of `initKing`: the three cells of row `dr`, skipping the
      centre and adding the neighbours that stay on the board. */
  method AddKingRow(sq: int, dr: int, mask: Bitboard) returns (next: Bitboard)
    requires IsSquare(sq) && -1 <= dr <= 1 && mask == KingBefore(sq, dr, -1)
    ensures next == KingBefore(sq, dr + 1, -1)
  {
    var r, f := sq / 8, sq % 8;
    next := mask;
    var df := -1;
    while df <= 1
      invariant -1 <= df <= 2
      invariant next == KingBefore(sq, dr, df)
    {
      next := AddKingCell(sq, r, f, dr, df, next);
      df := df + 1;
    }
  }

  /** The square of cell (dr, df) in the terms of the loops of `initKing`. */
  lemma KingCellTarget(sq: int, r: int, f: int, dr: int, df: int)
    requires IsSquare(sq) && r == sq / 8 && f == sq % 8 && -1 <= dr <= 1 && -1 <= df <= 1
    ensures KingTarget(sq, dr, df)
      == if !(dr == 0 && df == 0) && 0 <= r + dr < 8 && 0 <= f + df < 8 then (r + dr) * 8 + (f + df) else -1
  {}

  /** The body of the inner loop of `initKing`: skip the centre, and add the
      neighbour at offset (dr, df) when it stays on the board. */
  method AddKingCell(sq: int, r: int, f: int, dr: int, df: int, mask: Bitboard) returns (next: Bitboard)
    requires IsSquare(sq) && r == sq / 8 && f == sq % 8 && -1 <= dr <= 1 && -1 <= df <= 1
    ensures next == AddTarget(mask, KingTarget(sq, dr, df))
  {
    KingCellTarget(sq, r, f, dr, df);
    next := mask;
    if !(dr == 0 && df == 0) {
      var rr, ff := r + dr, f + df;
      if rr >= 0 && rr < 8 && ff >= 0 && ff < 8 {
        next := mask | Bit(rr * 8 + ff);
      }
    }
  }

  /** One ray of `attackedBy` and `inCheck`: walk from the square next to
      `sq` until the board ends or an occupied square is met, and report
      whether that square holds a piece of `a` or `b`. */
  method ScanRay(occ: Bitboard, a: Bitboard, b: Bitboard, sq: int, dr: int, df: int) returns (hit: bool)
    requires IsSquare(sq) && Direction(dr, df)
    ensures hit == RayAttack(occ, a, b, sq, dr, df)
  {
    var r, f := sq / 8 + dr, sq % 8 + df;
    while r >= 0 && r < 8 && f >= 0 && f < 8
      invariant Blocker(occ, r, f, dr, df) == Blocker(occ, Rank(sq) + dr, File(sq) + df, dr, df)
      decreases Room(r, f, dr, df)
    {
      var s := r * 8 + f;
      var blocked := MaskTest(occ, s);
      if blocked {
        hit := MaskTest(a | b, s);
        RayEnds(occ, a, b, sq, dr, df, r, f);
        return;
      }
      r, f := r + dr, f + df;
    }
    return false;
  }

  /** The walk of `ScanRay` meets an occupied square on (r, f): the ray is
      attacked exactly when `a | b` holds that square. */
  lemma RayEnds(occ: Bitboard, a: Bitboard, b: Bitboard, sq: int, dr: int, df: int, r: int, f: int)
    requires IsSquare(sq) && Direction(dr, df) && OnBoard(r, f) && Has(occ, Sq(r, f))
    requires Blocker(occ, r, f, dr, df) == Blocker(occ, Rank(sq) + dr, File(sq) + df, dr, df)
    ensures RayAttack(occ, a, b, sq, dr, df) <==> Has(a | b, Sq(r, f))
  {
    OrAt(a, b, Index(Sq(r, f)));
  }

  /** The four rays of one kind, walked in order until one is attacked. */
  method ScanRays(occ: Bitboard, a: Bitboard, b: Bitboard, sq: int, dR: seq<int>, dF: seq<int>)
    returns (hit: bool)
    requires IsSquare(sq) && |dR| == 4 && |dF| == 4
    requires forall d :: 0 <= d < 4 ==> Direction(dR[d], dF[d])
    ensures hit <==> exists d :: 0 <= d < 4 && RayAttack(occ, a, b, sq, dR[d], dF[d])
  {
    var d := 0;
    while d < 4
      invariant 0 <= d <= 4
      invariant forall e :: 0 <= e < d ==> !RayAttack(occ, a, b, sq, dR[e], dF[e])
    {
      hit := ScanRay(occ, a, b, sq, dR[d], dF[d]);
      if hit {
        return;
      }
      d := d + 1;
    }
    return false;
  }

  /** The knight loop of `inCheck`: try the eight offsets from `sq` and
      report whether one lands on a knight of `knights`. */
  method KnightNear(knights: Bitboard, sq: int) returns (hit: bool)
    requires IsSquare(sq)
    ensures hit == KnightAttack(knights, sq)
  {
    var rank, file := sq / 8, sq % 8;
    var i := 0;
    while i < 8
      invariant 0 <= i <= 8
      invariant forall j :: 0 <= j < i ==> KnightTarget(sq, j) == -1 || !Has(knights, KnightTarget(sq, j))
    {
      var rr, ff := rank + KnightDR[i], file + KnightDF[i];
      if rr >= 0 && rr < 8 && ff >= 0 && ff < 8 {
        var s := rr * 8 + ff;
        MaskHas(knights, s);
        if knights & Bit(s) != 0 {
          KnightTargets(sq, s);
          return true;
        }
      }
      i := i + 1;
    }
    forall s | 0 <= s < 64 && KnightJump(sq, s)
      ensures !Has(knights, s)
    {
      KnightTargets(sq, s);
    }
    return false;
  }

  /** The king loop of `inCheck`: visit the neighbouring squares row by row
      and report whether one holds a king of `kings`. */
  method KingNear(kings: Bitboard, sq: int) returns (hit: bool)
    requires IsSquare(sq)
    ensures hit == KingAttack(kings, sq)
  {
    var rank, file := sq / 8, sq % 8;
    var dr := -1;
    while dr <= 1
      invariant -1 <= dr <= 2
      invariant forall d, e :: -1 <= d <= 1 && -1 <= e <= 1 && Before(d, e, dr, -1) ==>
        KingTarget(sq, d, e) == -1 || !Has(kings, KingTarget(sq, d, e))
    {
      var df := -1;
      while df <= 1
        invariant -1 <= df <= 2
        invariant forall d, e :: -1 <= d <= 1 && -1 <= e <= 1 && Before(d, e, dr, df) ==>
          KingTarget(sq, d, e) == -1 || !Has(kings, KingTarget(sq, d, e))
      {
        if !(dr == 0 && df == 0) {
          var rr, ff := rank + dr, file + df;
          if rr >= 0 && rr < 8 && ff >= 0 && ff < 8 {
            var s := rr * 8 + ff;
            MaskHas(kings, s);
            if kings & Bit(s) != 0 {
              KingTargets(sq, s);
              return true;
            }
          }
        }
        df := df + 1;
      }
      dr := dr + 1;
    }
    forall s | 0 <= s < 64 && KingStep(sq, s)
      ensures !Has(kings, s)
    {
      KingTargets(sq, s);
    }
    return false;
  }

  /** `attackedBy`: pawns through the shifted pawn mask, knights and the
      king through the tables, then the diagonal and the straight rays. */
  method AttackedByMethod(pcs: seq<Bitboard>, occAll: Bitboard, sq: int, side: Color) returns (r: bool)
    requires |pcs| == 12 && IsSquare(sq)
    ensures r == AttackedBy(pcs, occAll, sq, side)
  {
    r := PawnsHit(if side == White then pcs[WP] else pcs[BP], side, sq);
    if r {
      return;
    }
    r := KnightsHit(if side == White then pcs[WN] else pcs[BN], sq);
    if r {
      return;
    }
    r := KingsHit(if side == White then pcs[WK] else pcs[BK], sq);
    if r {
      return;
    }
    var bishops, rooks, queens := pcs[PieceOf(side, 2)], pcs[PieceOf(side, 3)], pcs[PieceOf(side, 4)];
    r := ScanRays(occAll, bishops, queens, sq, DiagDR, DiagDF);
    if r {
      return;
    }
    r := ScanRays(occAll, rooks, queens, sq, LineDR, LineDF);
  }

  /** The body of `inCheck` once the king square `ksq` is known: enemy
      pawns through the shifted pawn mask, then the knight offsets and the
      king neighbourhood walked square by square, then the diagonal and the
      straight rays. */
  method KingSquareAttacked(pcs: seq<Bitboard>, occAll: Bitboard, ksq: int, them: Color) returns (r: bool)
    requires |pcs| == 12 && IsSquare(ksq)
    ensures r == AttackedBy(pcs, occAll, ksq, them)
  {
    r := PawnsHit(if them == White then pcs[WP] else pcs[BP], them, ksq);
    if r {
      return;
    }
    r := KnightNear(if them == White then pcs[WN] else pcs[BN], ksq);
    if r {
      return;
    }
    r := KingNear(if them == White then pcs[WK] else pcs[BK], ksq);
    if r {
      return;
    }
    var bishops, rooks, queens := pcs[PieceOf(them, 2)], pcs[PieceOf(them, 3)], pcs[PieceOf(them, 4)];
    r := ScanRays(occAll, bishops, queens, ksq, DiagDR, DiagDF);
    if r {
      return;
    }
    r := ScanRays(occAll, rooks, queens, ksq, LineDR, LineDF);
  }

  /** The pawn test of `attackedBy`: shift the pawns of `side` onto the
      squares they capture onto and test `sq`. */
  method PawnsHit(pawns: Bitboard, side: Color, sq: int) returns (r: bool)
    requires IsSquare(sq)
    ensures r == PawnAttack(pawns, side, sq)
  {
    PawnMaskHas(pawns, side, sq);
    if side == White {
      r := MaskTest(UpLeft(pawns) | UpRight(pawns), sq);
    } else {
      r := MaskTest(DownRight(pawns) | DownLeft(pawns), sq);
    }
  }

  /** The knight test of `attackedBy`: `knightAttacks[sq] & knights`. */
  method KnightsHit(knights: Bitboard, sq: int) returns (r: bool)
    requires IsSquare(sq)
    ensures r == KnightAttack(knights, sq)
  {
    KnightMaskMeets(knights, sq);
    r := KnightMask(sq) & knights != 0;
  }

  /** The king test of `attackedBy`: `kingAttacks[sq] & kings`. */
  method KingsHit(kings: Bitboard, sq: int) returns (r: bool)
    requires IsSquare(sq)
    ensures r == KingAttack(kings, sq)
  {
    KingMaskMeets(kings, sq);
    r := KingMask(sq) & kings != 0;
  }

  // ---------------------------------------------------------------------
  // What a ray reaches

  /** Walking from (r, f) in direction (dr, df), square `t` is met before
      any occupied square of `occ` has been passed (an occupied `t` itself
      is met). */
  predicate Reach(occ: Bitboard, r: int, f: int, dr: int, df: int, t: int)
    requires Direction(dr, df)
    decreases Room(r, f, dr, df)
  {
    OnBoard(r, f) && (t == Sq(r, f) || (!Has(occ, Sq(r, f)) && Reach(occ, r + dr, f + df, dr, df, t)))
  }

  /** Square `t` lies on the board, at or beyond (r, f) in direction (dr, df). */
  predicate Ahead(r: int, f: int, dr: int, df: int, t: int)
  {
    IsSquare(t)
    && (dr == 1 ==> Rank(t) >= r) && (dr == -1 ==> Rank(t) <= r)
    && (df == 1 ==> File(t) >= f) && (df == -1 ==> File(t) <= f)
  }

  /** What a ray reaches lies ahead of where it starts. */
  lemma {:induction false} ReachAhead(occ: Bitboard, r: int, f: int, dr: int, df: int, t: int)
    requires Direction(dr, df) && Reach(occ, r, f, dr, df, t)
    ensures Ahead(r, f, dr, df, t)
    decreases Room(r, f, dr, df)
  {
    SqParts(r, f);
    if t != Sq(r, f) {
      ReachAhead(occ, r + dr, f + df, dr, df, t);
    }
  }

  /** The blocker of a ray lies ahead of where the ray starts. */
  lemma {:induction false} BlockerAhead(occ: Bitboard, r: int, f: int, dr: int, df: int)
    requires Direction(dr, df)
    ensures var s := Blocker(occ, r, f, dr, df); s == -1 || Ahead(r, f, dr, df, s)
    decreases Room(r, f, dr, df)
  {
    if OnBoard(r, f) {
      SqParts(r, f);
      if !Has(occ, Sq(r, f)) {
        BlockerAhead(occ, r + dr, f + df, dr, df);
      }
    }
  }

  /** Of the squares a ray reaches, the occupied one is its blocker: the
      walk of `slideInDirection` stops exactly at `Blocker`. */
  lemma {:induction false} ReachBlocker(occ: Bitboard, r: int, f: int, dr: int, df: int, t: int)
    requires Direction(dr, df) && Reach(occ, r, f, dr, df, t)
    ensures IsSquare(t) && (Has(occ, t) <==> t == Blocker(occ, r, f, dr, df))
    decreases Room(r, f, dr, df)
  {
    if t == Sq(r, f) {
      SqParts(r, f);
      if !Has(occ, t) {
        BlockerBeyond(occ, r, f, dr, df);
      }
    } else {
      ReachBlocker(occ, r + dr, f + df, dr, df, t);
    }
  }

  /** A ray whose first square is empty is blocked further on, if at all. */
  lemma BlockerBeyond(occ: Bitboard, r: int, f: int, dr: int, df: int)
    requires Direction(dr, df) && OnBoard(r, f) && IsSquare(Sq(r, f)) && !Has(occ, Sq(r, f))
    ensures Blocker(occ, r, f, dr, df) != Sq(r, f)
  {
    SqParts(r, f);
    BlockerAhead(occ, r + dr, f + df, dr, df);
  }

  /** The blocker, when there is one, is occupied and reached. */
  lemma {:induction false} BlockerReached(occ: Bitboard, r: int, f: int, dr: int, df: int)
    requires Direction(dr, df) && Blocker(occ, r, f, dr, df) != -1
    ensures var s := Blocker(occ, r, f, dr, df); Has(occ, s) && Reach(occ, r, f, dr, df, s)
    decreases Room(r, f, dr, df)
  {
    if !Has(occ, Sq(r, f)) {
      BlockerReached(occ, r + dr, f + df, dr, df);
    }
  }
}
