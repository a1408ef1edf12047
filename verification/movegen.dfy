/**
 * The loops of src/movegen.cpp: `pushMovesFromMask`, `slideInDirection`,
 * the sections of `generateMoves`, its legality filter, and `perft`.  Each
 * method is proved to build exactly the move list of module Generation,
 * so the properties proved there (what is generated, in which order, and
 * that every kept move is legal) hold of the code.
 */
module MoveGen {
  import opened Bits
  import opened Types
  import opened Positions
  import opened Attacks
  import opened Generation
  import opened Boards

  /** Appending one move, then the rest, is appending both. */
  lemma Shift(v: seq<Move>, x: Move, rest: seq<Move>)
    ensures (v + [x]) + rest == v + ([x] + rest)
  {}

  /** Peeling the lowest target off a non-empty pawn target mask. */
  lemma PushesStep(v: seq<Move>, mask: Bitboard, d: int)
    requires mask != 0
    ensures v + Pushes(mask, d) == (v + [Move(Lsb(mask) - d, Lsb(mask), 0, 0)]) + Pushes(mask & (mask - 1), d)
  {
    ClearLowest(mask);
  }

  /** `pushMovesFromMask(out, from, mask)`: drain `mask` with `poplsb` and
      push a move from `from` to each square, lowest first. */
  method PushMovesFromMask(out: seq<Move>, from: int, mask: Bitboard) returns (res: seq<Move>)
    ensures res == out + Targets(from, mask)
  {
    var m := mask;
    res := out;
    while m != 0
      invariant res + Targets(from, m) == out + Targets(from, mask)
      decreases |Squares(m)|
    {
      var tobb, rest := PopLsb(m);
      LsbOfBit(Lsb(m));
      var to := Lsb(tobb);
      ClearLowest(m);
      Shift(res, Move(from, to, 0, 0), Targets(from, rest));
      res := res + [Move(from, to, 0, 0)];
      m := rest;
    }
  }

  /** The pawn loops of `generateMoves`: drain the target mask and push a
      move to each target from `d` squares behind it. */
  method PushPawnMoves(out: seq<Move>, mask: Bitboard, d: int) returns (res: seq<Move>)
    ensures res == out + Pushes(mask, d)
  {
    var tmp := mask;
    res := out;
    while tmp != 0
      invariant res + Pushes(tmp, d) == out + Pushes(mask, d)
      decreases |Squares(tmp)|
    {
      var tobb, rest := PopLsb(tmp);
      LsbOfBit(Lsb(tmp));
      var to := Lsb(tobb);
      PushesStep(res, tmp, d);
      res := res + [Move(to - d, to, 0, 0)];
      tmp := rest;
    }
  }

  /** `slideInDirection(b, out, from, dr, df)`: walk from the square next to
      `from`, pushing every empty square, and at the first occupied one push
      it only when the side not to move stands there, then stop. */
  method SlideInDirection(b: Board, out: seq<Move>, from: int, dr: int, df: int) returns (res: seq<Move>)
    requires |b.occ| == 2 && IsSquare(from) && Direction(dr, df)
    ensures res == out + RayFrom(b.occAll, Their(b.Pos(), b.occ), from, dr, df)
  {
    ghost var all, their := b.occAll, Their(b.Pos(), b.occ);
    var r, f := from / 8, from % 8;
    var rr, ff := r + dr, f + df;
    res := out;
    while rr >= 0 && rr < 8 && ff >= 0 && ff < 8
      invariant res + Ray(all, their, from, rr, ff, dr, df) == out + RayFrom(all, their, from, dr, df)
      decreases Room(rr, ff, dr, df)
    {
      var to := rr * 8 + ff;
      var blocked := MaskTest(b.occAll, to);
      if blocked {
        res := PushBlocker(b, res, from, rr, ff, dr, df);
        return;
      } else {
        RayOpen(res, all, their, from, rr, ff, dr, df);
        res := res + [Move(from, to, 0, 0)];
      }
      rr, ff := rr + dr, ff + df;
    }
    RayOff(all, their, from, rr, ff, dr, df);
  }

  /** The blocker branch of `slideInDirection`: the occupied square (r, f)
      is pushed only when the side not to move stands on it. */
  method PushBlocker(b: Board, v: seq<Move>, from: int, r: int, f: int, dr: int, df: int)
    returns (res: seq<Move>)
    requires |b.occ| == 2 && Direction(dr, df) && Attacks.OnBoard(r, f) && Has(b.occAll, Sq(r, f))
    ensures res == v + Ray(b.occAll, Their(b.Pos(), b.occ), from, r, f, dr, df)
  {
    var to := r * 8 + f;
    var hit;
    if b.stm == White {
      hit := MaskTest(b.occ[1], to);
    } else {
      hit := MaskTest(b.occ[0], to);
    }
    RayBlocked(b.occAll, Their(b.Pos(), b.occ), from, r, f, dr, df);
    res := if hit then v + [Move(from, to, 0, 0)] else v;
  }

  /** A ray through an empty square pushes it and walks on. */
  lemma RayOpen(v: seq<Move>, all: Bitboard, their: Bitboard, from: int, r: int, f: int, dr: int, df: int)
    requires Direction(dr, df) && Attacks.OnBoard(r, f) && !Has(all, Sq(r, f))
    ensures v + Ray(all, their, from, r, f, dr, df)
         == (v + [Move(from, Sq(r, f), 0, 0)]) + Ray(all, their, from, r + dr, f + df, dr, df)
  {}

  /** A ray that meets an occupied square ends there, pushing it only when
      `their` holds it. */
  lemma RayBlocked(all: Bitboard, their: Bitboard, from: int, r: int, f: int, dr: int, df: int)
    requires Direction(dr, df) && Attacks.OnBoard(r, f) && Has(all, Sq(r, f))
    ensures Ray(all, their, from, r, f, dr, df)
         == if Has(their, Sq(r, f)) then [Move(from, Sq(r, f), 0, 0)] else []
  {}

  /** A ray that has left the board pushes nothing more. */
  lemma RayOff(all: Bitboard, their: Bitboard, from: int, r: int, f: int, dr: int, df: int)
    requires Direction(dr, df) && !Attacks.OnBoard(r, f)
    ensures Ray(all, their, from, r, f, dr, df) == []
  {}

  // ---------------------------------------------------------------------
  // The sections of generateMoves

  /** `singles`: one rank ahead, onto an empty square. */
  method SinglesOf(c: Color, pawns: Bitboard, occAll: Bitboard) returns (singles: Bitboard)
    ensures singles == Singles(c, pawns, occAll)
  {
    if c == White {
      singles := (pawns << 8) & !occAll;
    } else {
      singles := (pawns >> 8) & !occAll;
    }
  }

  /** `doubles`: from `singles` on the third (sixth) rank, one more rank
      ahead onto an empty square. */
  method DoublesOf(c: Color, pawns: Bitboard, occAll: Bitboard, singles: Bitboard) returns (doubles: Bitboard)
    requires singles == Singles(c, pawns, occAll)
    ensures doubles == Doubles(c, pawns, occAll)
  {
    if c == White {
      doubles := ((singles & (RANK_2 << 8)) << 8) & !occAll;
    } else {
      doubles := ((singles & (RANK_7 >> 8)) >> 8) & !occAll;
    }
  }

  /** `capNW` (White) or `capSE` (Black). */
  method Captures7Of(c: Color, pawns: Bitboard, their: Bitboard) returns (cap: Bitboard)
    ensures cap == Captures7(c, pawns, their)
  {
    if c == White {
      cap := ((pawns & !FILE_A) << 7) & their;
    } else {
      cap := ((pawns & !FILE_H) >> 7) & their;
    }
  }

  /** `capNE` (White) or `capSW` (Black). */
  method Captures9Of(c: Color, pawns: Bitboard, their: Bitboard) returns (cap: Bitboard)
    ensures cap == Captures9(c, pawns, their)
  {
    if c == White {
      cap := ((pawns & !FILE_H) << 9) & their;
    } else {
      cap := ((pawns & !FILE_A) >> 9) & their;
    }
  }

  /** The enemy occupancy `generateMoves` tests captures against. */
  method TheirOcc(b: Board) returns (their: Bitboard)
    requires |b.occ| == 2
    ensures their == Their(b.Pos(), b.occ)
  {
    their := if b.stm == White then b.occ[1] else b.occ[0];
  }

  /** Appending four lists one after the other. */
  lemma Append4(v: seq<Move>, a: seq<Move>, b: seq<Move>, c: seq<Move>, d: seq<Move>)
    ensures (((v + a) + b) + c) + d == v + (a + b + c + d)
  {}

  /** The pawn section of `generateMoves`: single pushes, double pushes from
      the home rank through an empty square, then the two capture
      directions, each drained lowest target first. */
  method PawnSection(b: Board, out: seq<Move>) returns (res: seq<Move>)
    requires |b.pcs| == 12 && |b.occ| == 2
    ensures res == out + PawnMoves(b.stm, b.pcs[PieceOf(b.stm, 0)], b.occAll, Their(b.Pos(), b.occ))
  {
    var pawns := b.pcs[PieceOf(b.stm, 0)];
    var their := TheirOcc(b);
    var singles := SinglesOf(b.stm, pawns, b.occAll);
    var doubles := DoublesOf(b.stm, pawns, b.occAll, singles);
    var cap7 := Captures7Of(b.stm, pawns, their);
    var cap9 := Captures9Of(b.stm, pawns, their);
    var f := if b.stm == White then 1 else -1;
    var r1 := PushPawnMoves(out, singles, 8 * f);
    var r2 := PushPawnMoves(r1, doubles, 16 * f);
    var r3 := PushPawnMoves(r2, cap7, 7 * f);
    res := PushPawnMoves(r3, cap9, 9 * f);
    Append4(out, Pushes(singles, 8 * f), Pushes(doubles, 16 * f), Pushes(cap7, 7 * f), Pushes(cap9, 9 * f));
  }

  /** One en-passant test: push the capture from `from` when a pawn of
      `pawns` stands on a square of `near`. */
  method EpPush(v: seq<Move>, pawns: Bitboard, near: Bitboard, from: int, ep: int) returns (res: seq<Move>)
    ensures res == v + EpCapture(pawns, near, from, ep)
  {
    res := v;
    if pawns & near != 0 {
      res := res + [Move(from, ep, 0, MF_ENPASSANT | MF_CAPTURE)];
    }
  }

  /** Appending two lists one after the other. */
  lemma Append2(v: seq<Move>, a: seq<Move>, b: seq<Move>)
    ensures (v + a) + b == v + (a + b)
  {}

  /** The en-passant section of `generateMoves`: with an en-passant square,
      a capture onto it from each side a friendly pawn can take it from. */
  method EpSection(b: Board, out: seq<Move>) returns (res: seq<Move>)
    requires |b.pcs| == 12 && (b.epSquare == -1 || IsSquare(b.epSquare))
    ensures res == out + EpMoves(b.stm, b.pcs[PieceOf(b.stm, 0)], b.epSquare)
  {
    res := out;
    if b.epSquare != -1 {
      res := EpPair(out, b.stm, b.pcs[PieceOf(b.stm, 0)], b.epSquare);
    }
  }

  /** The two tests of the en-passant section, for side `c`. */
  method EpPair(out: seq<Move>, c: Color, pawns: Bitboard, epsq: int) returns (res: seq<Move>)
    requires IsSquare(epsq)
    ensures res == out + EpMoves(c, pawns, epsq)
  {
    if c == White {
      res := EpPush(out, pawns & !FILE_A, Bit(epsq) >> 7, epsq - 7, epsq);
      res := EpPush(res, pawns & !FILE_H, Bit(epsq) >> 9, epsq - 9, epsq);
      Append2(out, EpCapture(pawns & !FILE_A, Bit(epsq) >> 7, epsq - 7, epsq),
              EpCapture(pawns & !FILE_H, Bit(epsq) >> 9, epsq - 9, epsq));
    } else {
      res := EpPush(out, pawns & !FILE_H, Bit(epsq) << 7, epsq + 7, epsq);
      res := EpPush(res, pawns & !FILE_A, Bit(epsq) << 9, epsq + 9, epsq);
      Append2(out, EpCapture(pawns & !FILE_H, Bit(epsq) << 7, epsq + 7, epsq),
              EpCapture(pawns & !FILE_A, Bit(epsq) << 9, epsq + 9, epsq));
    }
  }

  /** A knight or the king on `from` with table mask `attacks`: first the
      quiet moves to its empty squares, then the captures on its enemy
      squares. */
  method StepSection(out: seq<Move>, from: int, attacks: Bitboard, occAll: Bitboard, their: Bitboard)
    returns (res: seq<Move>)
    ensures res == out + StepMoves(from, attacks, occAll, their)
  {
    var quiets := attacks & !occAll;
    var caps := attacks & their;
    var r1 := PushMovesFromMask(out, from, quiets);
    res := PushMovesFromMask(r1, from, caps);
    Append2(out, Targets(from, quiets), Targets(from, caps));
  }

  /** The four diagonal slides of a bishop (or queen) on `from`. */
  method Diagonals(b: Board, out: seq<Move>, from: int) returns (res: seq<Move>)
    requires |b.occ| == 2 && IsSquare(from)
    ensures res == out + DiagonalMoves(b.occAll, Their(b.Pos(), b.occ), from)
  {
    var r1 := SlideInDirection(b, out, from, 1, 1);
    var r2 := SlideInDirection(b, r1, from, 1, -1);
    var r3 := SlideInDirection(b, r2, from, -1, 1);
    res := SlideInDirection(b, r3, from, -1, -1);
    ghost var all, their := b.occAll, Their(b.Pos(), b.occ);
    Append4(out, RayFrom(all, their, from, 1, 1), RayFrom(all, their, from, 1, -1),
            RayFrom(all, their, from, -1, 1), RayFrom(all, their, from, -1, -1));
  }

  /** The four straight slides of a rook (or queen) on `from`. */
  method Straights(b: Board, out: seq<Move>, from: int) returns (res: seq<Move>)
    requires |b.occ| == 2 && IsSquare(from)
    ensures res == out + StraightMoves(b.occAll, Their(b.Pos(), b.occ), from)
  {
    var r1 := SlideInDirection(b, out, from, 1, 0);
    var r2 := SlideInDirection(b, r1, from, -1, 0);
    var r3 := SlideInDirection(b, r2, from, 0, 1);
    res := SlideInDirection(b, r3, from, 0, -1);
    ghost var all, their := b.occAll, Their(b.Pos(), b.occ);
    Append4(out, RayFrom(all, their, from, 1, 0), RayFrom(all, their, from, -1, 0),
            RayFrom(all, their, from, 0, 1), RayFrom(all, their, from, 0, -1));
  }

  /** The moves of one piece of kind `kind` (1 knight, 2 bishop, 3 rook,
      4 queen, 5 king) standing on `from`; the knight and king masks are
      the `knightAttacks` and `kingAttacks` table entries. */
  method PieceSection(b: Board, out: seq<Move>, kind: int, from: int) returns (res: seq<Move>)
    requires |b.occ| == 2 && 1 <= kind <= 5 && IsSquare(from)
    ensures res == out + PieceMoves(kind, b.occAll, Their(b.Pos(), b.occ), from)
  {
    var their := TheirOcc(b);
    if kind == 1 {
      res := StepSection(out, from, KnightMask(from), b.occAll, their);
    } else if kind == 2 {
      res := Diagonals(b, out, from);
    } else if kind == 3 {
      res := Straights(b, out, from);
    } else if kind == 4 {
      var r1 := Diagonals(b, out, from);
      res := Straights(b, r1, from);
      Append2(out, DiagonalMoves(b.occAll, their, from), StraightMoves(b.occAll, their, from));
    } else {
      res := StepSection(out, from, KingMask(from), b.occAll, their);
    }
  }

  /** Peeling the lowest piece off a non-empty set of origins. */
  lemma SweepStep(v: seq<Move>, kind: int, all: Bitboard, their: Bitboard, pieces: Bitboard)
    requires 1 <= kind <= 5 && pieces != 0
    ensures Lsb(pieces) in Squares(pieces)
    ensures v + Sweep(kind, all, their, pieces)
         == (v + PieceMoves(kind, all, their, Lsb(pieces))) + Sweep(kind, all, their, pieces & (pieces - 1))
  {
    ClearLowest(pieces);
  }

  /** The knight, bishop, rook or queen section of `generateMoves`: drain
      the side to move's pieces of that kind with `poplsb`, lowest square
      first, pushing each one's moves. */
  method SweepSection(b: Board, out: seq<Move>, kind: int) returns (res: seq<Move>)
    requires |b.pcs| == 12 && |b.occ| == 2 && 1 <= kind <= 4
    ensures res == out + Sweep(kind, b.occAll, Their(b.Pos(), b.occ), b.pcs[PieceOf(b.stm, kind)])
  {
    ghost var all, their := b.occAll, Their(b.Pos(), b.occ);
    var pieces := b.pcs[PieceOf(b.stm, kind)];
    ghost var start := pieces;
    res := out;
    while pieces != 0
      invariant res + Sweep(kind, all, their, pieces) == out + Sweep(kind, all, their, start)
      decreases |Squares(pieces)|
    {
      var frombb, rest := PopLsb(pieces);
      LsbOfBit(Lsb(pieces));
      var from := Lsb(frombb);
      SweepStep(res, kind, all, their, pieces);
      res := PieceSection(b, res, kind, from);
      pieces := rest;
    }
  }

  /** The king section of `generateMoves`: the moves of the king found with
      `lsb`. */
  method KingSection(b: Board, out: seq<Move>) returns (res: seq<Move>)
    requires |b.pcs| == 12 && |b.occ| == 2 && b.pcs[PieceOf(b.stm, 5)] != 0
    ensures res == out + PieceMoves(5, b.occAll, Their(b.Pos(), b.occ), Lsb(b.pcs[PieceOf(b.stm, 5)]))
  {
    var from := Lsb(b.pcs[PieceOf(b.stm, 5)]);
    res := PieceSection(b, out, 5, from);
  }

  /** The emptiness test of the castling path, square by square. */
  method PathEmpty(all: Bitboard, x: int, y: int) returns (r: bool)
    requires IsSquare(x) && IsSquare(y)
    ensures r <==> !Has(all, x) && !Has(all, y)
  {
    var hx := MaskTest(all, x);
    var hy := MaskTest(all, y);
    r := !hx && !hy;
  }

  /** One castling side of `generateMoves` for side `c` and right `k`: the
      right, the two path squares empty, the rook on its corner, then the
      king's square and the two path squares not attacked, checked in that
      order and stopping at the first failure. */
  method CastleSide(out: seq<Move>, pcs: seq<Bitboard>, castle: bv8, all: Bitboard, c: Color, k: int)
    returns (res: seq<Move>)
    requires |pcs| == 12 && 0 <= k < 4 && (c == White <==> k < 2)
    ensures res == out + CastleTry(pcs, castle, all, c, k)
  {
    var e := if c == White then 4 else 60;
    var dir := if k % 2 == 0 then 1 else -1;
    res := out;
    var empty := PathEmpty(all, e + dir, e + 2 * dir);
    var rook := MaskTest(pcs[PieceOf(c, 3)], Corner(k));
    if castle & Right(k) != 0 && empty && rook {
      var hit := AttackedByMethod(pcs, all, e, Other(c));
      if !hit {
        hit := AttackedByMethod(pcs, all, e + dir, Other(c));
        if !hit {
          hit := AttackedByMethod(pcs, all, e + 2 * dir, Other(c));
          if !hit {
            res := out + [Move(e, e + 2 * dir, 0, MF_CASTLE)];
          }
        }
      }
    }
  }

  /** The castling section of `generateMoves`: only with the king on its
      home square, the king side first, then the queen side. */
  method CastleSection(b: Board, out: seq<Move>) returns (res: seq<Move>)
    requires |b.pcs| == 12
    ensures res == out + CastleMoves(b.Pos(), b.occAll)
  {
    res := CastlePair(out, b.pcs, b.castleRights, b.occAll, b.stm);
  }

  /** Both castling sides of side `c`, behind the king-at-home test. */
  method CastlePair(out: seq<Move>, pcs: seq<Bitboard>, castle: bv8, all: Bitboard, c: Color)
    returns (res: seq<Move>)
    requires |pcs| == 12
    ensures res == out + CastleMoves(Position(pcs, 0, castle, c), all)
  {
    var home := MaskTest(pcs[PieceOf(c, 5)], KingHome(c));
    res := out;
    if home {
      var k := if c == White then 0 else 2;
      var r1 := CastleSide(out, pcs, castle, all, c, k);
      res := CastleSide(r1, pcs, castle, all, c, k + 1);
      Append2(out, CastleTry(pcs, castle, all, c, k), CastleTry(pcs, castle, all, c, k + 1));
    }
  }

  // ---------------------------------------------------------------------
  // generateMoves

  lemma Nil(a: seq<Move>)
    ensures [] + a == a
  {}

  /** Every section of `generateMoves` in the source's order, before the
      legality filter. */
  method GeneratePseudo(b: Board) returns (out: seq<Move>)
    requires |b.pcs| == 12 && |b.occ| == 2 && Generable(b.Pos())
    ensures out == Pseudo(b.Pos(), b.occ, b.occAll)
  {
    var r1 := PawnSection(b, []);
    Nil(PawnMoves(b.stm, b.pcs[PieceOf(b.stm, 0)], b.occAll, Their(b.Pos(), b.occ)));
    var r2 := EpSection(b, r1);
    var r3 := SweepSection(b, r2, 1);
    var r4 := SweepSection(b, r3, 2);
    var r5 := SweepSection(b, r4, 3);
    var r6 := SweepSection(b, r5, 4);
    var r7 := KingSection(b, r6);
    out := CastleSection(b, r7);
  }

  /** One step of the legality filter: play `m` on a copy of the board and
      keep it when the side that moved is not in check afterwards. */
  method IsLegal(b: Board, m: Move, side: Color) returns (ok: bool)
    requires b.Valid() && b.ply < HIST_SIZE && CanMake(b.Pos(), m) && side == b.stm
    ensures ok == Legal(b.Pos(), m)
  {
    var test := new Board.Copy(b);
    test.MakeMove(m);
    OccupancyIs(test.pcs, test.occ, test.occAll);
    var check := test.InCheck(side);
    ok := !check;
  }

  /** The filter of a list extended by one more move. */
  lemma FilterSnoc(p: Position, l: seq<Move>, i: int)
    requires 0 <= i < |l|
    ensures Filter(p, l[..i + 1]) == Filter(p, l[..i]) + (if Legal(p, l[i]) then [l[i]] else [])
  {
    assert l[..i + 1][..i] == l[..i];
  }

  /** The legality filter of `generateMoves`: keep, in order, the moves
      after which the side to move is not in check. */
  method LegalFilter(b: Board, pseudo: seq<Move>) returns (legal: seq<Move>)
    requires b.Valid() && b.ply < HIST_SIZE
    requires forall m :: m in pseudo ==> CanMake(b.Pos(), m)
    ensures legal == Filter(b.Pos(), pseudo)
  {
    var side := b.stm;
    legal := [];
    var i := 0;
    while i < |pseudo|
      invariant 0 <= i <= |pseudo|
      invariant legal == Filter(b.Pos(), pseudo[..i])
    {
      var ok := IsLegal(b, pseudo[i], side);
      FilterSnoc(b.Pos(), pseudo, i);
      if ok {
        legal := legal + [pseudo[i]];
      }
      i := i + 1;
    }
    assert pseudo[..i] == pseudo;
  }

  /** `generateMoves(b, out)`: the legal moves of the position, in the
      order the sections push them. */
  method GenerateMoves(b: Board) returns (out: seq<Move>)
    requires b.Valid() && b.ply < HIST_SIZE && Sound(b.Pos()) && Generable(b.Pos())
    ensures out == Generated(b.Pos())
  {
    OccupancyIs(b.pcs, b.occ, b.occAll);
    var pseudo := GeneratePseudo(b);
    forall m | m in pseudo
      ensures CanMake(b.Pos(), m)
    {
      PseudoFine(b.Pos(), b.occ, b.occAll, m);
    }
    out := LegalFilter(b, pseudo);
    GeneratedIs(b.Pos());
  }

  // ---------------------------------------------------------------------
  // perft

  /** `perft(b, depth)`: the number of leaf positions `depth` plies below
      the board, counted by making and unmaking every generated move; the
      board is back where it started afterwards. */
  method Perft(b: Board, depth: nat, ghost p: Position) returns (nodes: nat)
    requires b.Valid() && b.Pos() == p && Searchable(p, depth) && b.ply + depth <= HIST_SIZE
    modifies b
    ensures nodes == Generation.Perft(p, depth)
    ensures b.Valid() && b.Pos() == p && b.ply == old(b.ply)
    ensures forall k :: 0 <= k < b.ply ==> b.hist[k] == old(b.hist[k])
    decreases depth, 3
  {
    if depth == 0 {
      return 1;
    }
    var d := depth - 1;
    assert d + 1 == depth;
    var mv := GenerateMoves(b);
    nodes := CountBelow(b, d, p, mv);
  }

  /** The history stack after a push at `ply0` and a call that keeps the stack below `ply2`. */
  lemma HistAfterMake(h0: seq<State>, h1: seq<State>, h2: seq<State>, ply0: int, ply2: int, x: State)
    requires 0 <= ply0 < |h0| && h1 == h0[ply0 := x] && ply2 == ply0 + 1 && |h2| == |h0|
    requires forall k :: 0 <= k < ply2 ==> h2[k] == h1[k]
    ensures h2[ply0] == x
    ensures forall k :: 0 <= k < ply0 ==> h2[k] == h0[k]
  {
  }

  /** Two calls that each keep the stack below `n` keep it together. */
  lemma FrameChain(h0: seq<State>, h1: seq<State>, h2: seq<State>, n: int)
    requires n <= |h0| && n <= |h1| && n <= |h2|
    requires forall k :: 0 <= k < n ==> h1[k] == h0[k]
    requires forall k :: 0 <= k < n ==> h2[k] == h1[k]
    ensures forall k :: 0 <= k < n ==> h2[k] == h0[k]
  {
  }

  /** The perft loop: the counts below the generated moves `mv` of `p`,
      summed. */
  method CountBelow(b: Board, d: nat, ghost p: Position, mv: seq<Move>) returns (nodes: nat)
    requires b.Valid() && b.Pos() == p && Searchable(p, d + 1) && b.ply + d < HIST_SIZE
    requires mv == Generated(p)
    modifies b
    ensures nodes == SumPerft(p, |mv|, d + 1)
    ensures b.Valid() && b.Pos() == p && b.ply == old(b.ply)
    ensures forall k :: 0 <= k < b.ply ==> b.hist[k] == old(b.hist[k])
    decreases d + 1, 2
  {
    ghost var h0, ply0 := b.hist, b.ply;
    nodes := 0;
    var i := 0;
    while i < |mv|
      invariant 0 <= i <= |mv|
      invariant b.Valid() && b.Pos() == p && b.ply == ply0
      invariant forall k :: 0 <= k < ply0 ==> b.hist[k] == h0[k]
      invariant nodes == SumPerft(p, i, d + 1)
    {
      SumPerftNext(p, i, d);
      ghost var h1 := b.hist;
      var n := PlayAndCount(b, mv[i], d, p);
      FrameChain(h0, h1, b.hist, ply0);
      nodes := nodes + n;
      i := i + 1;
    }
  }

  /** The body of the perft loop: make the generated move `m`, count below
      it, unmake it. */
  method PlayAndCount(b: Board, m: Move, d: nat, ghost p: Position) returns (n: nat)
    requires b.Valid() && b.Pos() == p && b.ply + d < HIST_SIZE
    requires Searchable(p, d + 1) && m in Generated(p)
    modifies b
    ensures n == ChildPerft(p, m, d)
    ensures b.Valid() && b.Pos() == p && b.ply == old(b.ply)
    ensures forall k :: 0 <= k < b.ply ==> b.hist[k] == old(b.hist[k])
    decreases d + 1, 1
  {
    GeneratedFine(p, m);
    RoundTripAsWritten(p, m);
    ghost var ply0 := b.ply;
    n := MakeAndCount(b, m, d, p);
    assert b.ply - 1 == ply0;
    b.UnmakeMove(m);
  }

  /** Make the generated move `m` and count `d` plies below it. */
  method MakeAndCount(b: Board, m: Move, d: nat, ghost p: Position) returns (n: nat)
    requires b.Valid() && b.Pos() == p && b.ply + d < HIST_SIZE
    requires Searchable(p, d + 1) && m in Generated(p) && CanMake(p, m)
    modifies b
    ensures n == ChildPerft(p, m, d)
    ensures b.Valid() && b.Pos() == Make(p, m) && b.ply == old(b.ply) + 1
    ensures b.hist[old(b.ply)] == Saved(p, m)
    ensures forall k :: 0 <= k < old(b.ply) ==> b.hist[k] == old(b.hist[k])
    decreases d + 1, 0
  {
    SearchableChild(p, d + 1, m);
    assert d + 1 - 1 == d;
    ChildPerftIs(p, m, d);
    ghost var h0, ply0 := b.hist, b.ply;
    b.MakeMove(m);
    ghost var h1 := b.hist;
    n := Perft(b, d, Make(p, m));
    HistAfterMake(h0, h1, b.hist, ply0, b.ply, Saved(p, m));
  }
}
