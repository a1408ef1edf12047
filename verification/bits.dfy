/**
 * 64-bit bitboards (src/bitboard.h).  Bit `sq` of a bitboard stands for the
 * square `sq = rank * 8 + file`.  `Squares(b)` is the set of squares a
 * bitboard holds; each bitwise operation the engine uses is related to a set
 * operation on `Squares`, and `lsb`, `poplsb` and `popcount` are specified
 * through it.
 */
module Bits {
  type Bitboard = bv64

  predicate IsSquare(sq: int) { 0 <= sq < 64 }

  /** The six-bit shift amount that selects square `sq`. */
  function Index(sq: int): bv6
    requires IsSquare(sq)
  {
    if sq == 0 then 0 else Index(sq - 1) + 1
  }

  /** `1ULL << s`. */
  function BitAt(s: bv6): Bitboard
  {
    1 << s
  }

  /** Whether bit `s` of `b` is set. */
  predicate HasAt(b: Bitboard, s: bv6)
  {
    (b >> s) & 1 == 1
  }

  /** `1ULL << sq`: the bitboard holding square `sq` alone. */
  function Bit(sq: int): Bitboard
    requires IsSquare(sq)
  {
    BitAt(Index(sq))
  }

  predicate Has(b: Bitboard, sq: int)
    requires IsSquare(sq)
  {
    HasAt(b, Index(sq))
  }

  /** The squares a bitboard holds. */
  function Squares(b: Bitboard): (s: set<int>)
    ensures forall sq :: sq in s <==> IsSquare(sq) && Has(b, sq)
  {
    set sq | 0 <= sq < 64 && Has(b, sq)
  }

  /** Every square of the board. */
  function AllSquares(): (s: set<int>)
    ensures forall sq :: sq in s <==> IsSquare(sq)
  {
    set sq | 0 <= sq < 64 && IsSquare(sq)
  }

  // ---------------------------------------------------------------------
  // Facts about single bits, stated on six-bit shift amounts

  lemma {:induction false} IndexValue(sq: int)
    requires IsSquare(sq)
    ensures Index(sq) as int == sq
  {
    if sq > 0 {
      IndexValue(sq - 1);
    }
  }

  lemma IndexOf(s: bv6)
    ensures Index(s as int) == s
  {
    IndexValue(s as int);
  }

  lemma AndAt(x: Bitboard, y: Bitboard, s: bv6)
    ensures HasAt(x & y, s) <==> HasAt(x, s) && HasAt(y, s)
  {}

  lemma OrAt(x: Bitboard, y: Bitboard, s: bv6)
    ensures HasAt(x | y, s) <==> HasAt(x, s) || HasAt(y, s)
  {}

  lemma NotAt(x: Bitboard, s: bv6)
    ensures HasAt(!x, s) <==> !HasAt(x, s)
  {}

  lemma SingleAt(k: bv6, s: bv6)
    ensures HasAt(BitAt(k), s) <==> s == k
  {}

  lemma MaskAt(b: Bitboard, s: bv6)
    ensures HasAt(b, s) <==> b & BitAt(s) != 0
  {}

  lemma ClearAt(b: Bitboard, k: bv6, s: bv6)
    ensures HasAt(b & !BitAt(k), s) <==> HasAt(b, s) && s != k
  {}

  lemma IndexInj(a: int, b: int)
    requires IsSquare(a) && IsSquare(b)
    ensures Index(a) == Index(b) <==> a == b
  {
    IndexValue(a);
    IndexValue(b);
  }

  lemma ZeroAt(s: bv6)
    ensures !HasAt(0, s)
  {}

  // ---------------------------------------------------------------------
  // Bitwise operations are set operations on squares

  lemma AndSquares(x: Bitboard, y: Bitboard)
    ensures Squares(x & y) == Squares(x) * Squares(y)
  {
    forall sq | IsSquare(sq)
      ensures Has(x & y, sq) <==> Has(x, sq) && Has(y, sq)
    {
      AndAt(x, y, Index(sq));
    }
  }

  lemma OrSquares(x: Bitboard, y: Bitboard)
    ensures Squares(x | y) == Squares(x) + Squares(y)
  {
    forall sq | IsSquare(sq)
      ensures Has(x | y, sq) <==> Has(x, sq) || Has(y, sq)
    {
      OrAt(x, y, Index(sq));
    }
  }

  lemma NotSquares(x: Bitboard)
    ensures Squares(!x) == AllSquares() - Squares(x)
  {
    forall sq | IsSquare(sq)
      ensures Has(!x, sq) <==> !Has(x, sq)
    {
      NotAt(x, Index(sq));
    }
  }

  /** `x & y` holds a square exactly when both do. */
  lemma AndHas(x: Bitboard, y: Bitboard, sq: int)
    requires IsSquare(sq)
    ensures Has(x & y, sq) <==> Has(x, sq) && Has(y, sq)
  {
    AndAt(x, y, Index(sq));
  }

  /** `~x` holds a square exactly when `x` does not. */
  lemma NotHas(x: Bitboard, sq: int)
    requires IsSquare(sq)
    ensures Has(!x, sq) <==> !Has(x, sq)
  {
    NotAt(x, Index(sq));
  }

  /** `x & ~y` holds a square exactly when `x` does and `y` does not. */
  lemma OrHas(x: Bitboard, y: Bitboard, z: Bitboard, sq: int)
    requires z == x | y && IsSquare(sq)
    ensures Has(z, sq) <==> Has(x, sq) || Has(y, sq)
  {
    OrAt(x, y, Index(sq));
  }

  lemma AndNotHas(x: Bitboard, y: Bitboard, sq: int)
    requires IsSquare(sq)
    ensures Has(x & !y, sq) <==> Has(x, sq) && !Has(y, sq)
  {
    var z := !y;
    AndHas(x, z, sq);
    NotHas(y, sq);
  }

  lemma BitSquares(k: int)
    requires IsSquare(k)
    ensures Squares(Bit(k)) == {k}
  {
    forall sq | IsSquare(sq)
      ensures Has(Bit(k), sq) <==> sq == k
    {
      SingleAt(Index(k), Index(sq));
      IndexInj(k, sq);
    }
  }

  lemma ZeroSquares()
    ensures Squares(0) == {}
  {
    forall sq | IsSquare(sq)
      ensures !Has(0, sq)
    {
      ZeroAt(Index(sq));
    }
  }

  /** `b & (1ULL << sq)` is non-zero exactly when `b` holds `sq`. */
  lemma MaskHas(b: Bitboard, sq: int)
    requires IsSquare(sq)
    ensures b & Bit(sq) != 0 <==> Has(b, sq)
  {
    MaskAt(b, Index(sq));
  }

  /** The engine's membership test `b & (1ULL << sq)`, as a truth value. */
  method MaskTest(b: Bitboard, sq: int) returns (r: bool)
    requires IsSquare(sq)
    ensures r == Has(b, sq)
  {
    MaskHas(b, sq);
    r := b & Bit(sq) != 0;
  }

  /** `b & ~(1ULL << k)` removes square k. */
  lemma ClearSquares(b: Bitboard, k: int)
    requires IsSquare(k)
    ensures Squares(b & !Bit(k)) == Squares(b) - {k}
  {
    AndSquares(b, !Bit(k));
    NotSquares(Bit(k));
    BitSquares(k);
    OnBoard(b);
    RemoveOne(Squares(b & !Bit(k)), Squares(b), Squares(!Bit(k)), Squares(Bit(k)), k);
  }

  lemma OnBoard(b: Bitboard)
    ensures Squares(b) <= AllSquares()
  {}

  lemma RemoveOne(A: set<int>, B: set<int>, C: set<int>, D: set<int>, k: int)
    requires A == B * C && C == AllSquares() - D && D == {k} && B <= AllSquares()
    ensures A == B - {k}
  {}

  /** `b | (1ULL << k)` adds square k. */
  lemma SetSquares(b: Bitboard, k: int)
    requires IsSquare(k)
    ensures Squares(b | Bit(k)) == Squares(b) + {k}
  {
    forall sq | IsSquare(sq)
      ensures Has(b | Bit(k), sq) <==> Has(b, sq) || sq == k
    {
      OrAt(b, Bit(k), Index(sq));
      SingleAt(Index(k), Index(sq));
      IndexInj(k, sq);
    }
  }

  lemma {:induction false} IndexAdd(sq: int, d: int)
    requires IsSquare(sq) && IsSquare(d) && IsSquare(sq + d)
    ensures Index(sq + d) == Index(sq) + Index(d)
    decreases d
  {
    if d > 0 {
      IndexAdd(sq, d - 1);
    }
  }

  lemma IndexLe(a: int, b: int)
    requires IsSquare(a) && IsSquare(b)
    ensures a <= b <==> Index(a) <= Index(b)
  {
    IndexValue(a);
    IndexValue(b);
  }

  lemma Shl8At(b: Bitboard, s: bv6)
    ensures HasAt(b << 8, s) <==> s >= 8 && HasAt(b, s - 8)
  {}

  lemma Shl8Has(b: Bitboard, sq: int)
    requires IsSquare(sq)
    ensures Has(b << 8, sq) <==> sq >= 8 && Has(b, sq - 8)
  {
    Shl8At(b, Index(sq));
    IndexLe(8, sq);
    if sq >= 8 {
      IndexAdd(sq - 8, 8);
    }
  }

  // ---------------------------------------------------------------------
  // Shifts by the pawn offsets 7, 8 and 9

  lemma Shl7At(b: Bitboard, s: bv6)
    ensures HasAt(b << 7, s) <==> s >= 7 && HasAt(b, s - 7)
  {}

  lemma Shl9At(b: Bitboard, s: bv6)
    ensures HasAt(b << 9, s) <==> s >= 9 && HasAt(b, s - 9)
  {}

  lemma Shr7At(b: Bitboard, s: bv6)
    ensures HasAt(b >> 7, s) <==> s < 57 && HasAt(b, s + 7)
  {}

  lemma Shr8At(b: Bitboard, s: bv6)
    ensures HasAt(b >> 8, s) <==> s < 56 && HasAt(b, s + 8)
  {}

  lemma Shr9At(b: Bitboard, s: bv6)
    ensures HasAt(b >> 9, s) <==> s < 55 && HasAt(b, s + 9)
  {}

  lemma Shl7Has(b: Bitboard, sq: int)
    requires IsSquare(sq)
    ensures Has(b << 7, sq) <==> sq >= 7 && Has(b, sq - 7)
  {
    Shl7At(b, Index(sq));
    IndexLe(7, sq);
    if sq >= 7 {
      IndexAdd(sq - 7, 7);
    }
  }

  lemma Shl9Has(b: Bitboard, sq: int)
    requires IsSquare(sq)
    ensures Has(b << 9, sq) <==> sq >= 9 && Has(b, sq - 9)
  {
    Shl9At(b, Index(sq));
    IndexLe(9, sq);
    if sq >= 9 {
      IndexAdd(sq - 9, 9);
    }
  }

  lemma Shr7Has(b: Bitboard, sq: int)
    requires IsSquare(sq)
    ensures Has(b >> 7, sq) <==> sq + 7 < 64 && Has(b, sq + 7)
  {
    Shr7At(b, Index(sq));
    IndexValue(sq);
    if sq < 57 {
      IndexAdd(sq, 7);
    }
  }

  lemma Shr8Has(b: Bitboard, sq: int)
    requires IsSquare(sq)
    ensures Has(b >> 8, sq) <==> sq + 8 < 64 && Has(b, sq + 8)
  {
    Shr8At(b, Index(sq));
    IndexValue(sq);
    if sq < 56 {
      IndexAdd(sq, 8);
    }
  }

  lemma Shr9Has(b: Bitboard, sq: int)
    requires IsSquare(sq)
    ensures Has(b >> 9, sq) <==> sq + 9 < 64 && Has(b, sq + 9)
  {
    Shr9At(b, Index(sq));
    IndexValue(sq);
    if sq < 55 {
      IndexAdd(sq, 9);
    }
  }

  // ---------------------------------------------------------------------
  // File and rank masks

  const FILE_A: Bitboard := 0x0101_0101_0101_0101
  const FILE_H: Bitboard := 0x8080_8080_8080_8080
  const RANK_2: Bitboard := 0x0000_0000_0000_FF00
  const RANK_7: Bitboard := 0x00FF_0000_0000_0000

  function File(sq: int): int { sq % 8 }
  function Rank(sq: int): int { sq / 8 }

  /** The squares of one file (0 = a, ..., 7 = h). */
  function FileSquares(f: int): (s: set<int>)
    ensures forall sq :: sq in s <==> IsSquare(sq) && File(sq) == f
  {
    set sq | 0 <= sq < 64 && File(sq) == f
  }

  /** The squares of one rank (0 = first, ..., 7 = eighth). */
  function RankSquares(r: int): (s: set<int>)
    ensures forall sq :: sq in s <==> IsSquare(sq) && Rank(sq) == r
  {
    set sq | 0 <= sq < 64 && Rank(sq) == r
  }

  lemma Low3(s: bv6)
    ensures (s & 7) as int == (s as int) % 8
  {}

  lemma FileAAt(s: bv6)
    ensures HasAt(FILE_A, s) <==> s & 7 == 0
  {}

  lemma FileHAt(s: bv6)
    ensures HasAt(FILE_H, s) <==> s & 7 == 7
  {}

  lemma Rank2At(s: bv6)
    ensures HasAt(RANK_2, s) <==> 8 <= s < 16
  {}

  lemma Rank7At(s: bv6)
    ensures HasAt(RANK_7, s) <==> 48 <= s < 56
  {}

  lemma FileAHas(sq: int)
    requires IsSquare(sq)
    ensures Has(FILE_A, sq) <==> File(sq) == 0
  {
    FileAAt(Index(sq));
    Low3(Index(sq));
    IndexValue(sq);
  }

  lemma FileHHas(sq: int)
    requires IsSquare(sq)
    ensures Has(FILE_H, sq) <==> File(sq) == 7
  {
    FileHAt(Index(sq));
    Low3(Index(sq));
    IndexValue(sq);
  }

  lemma Rank2Has(sq: int)
    requires IsSquare(sq)
    ensures Has(RANK_2, sq) <==> Rank(sq) == 1
  {
    Rank2At(Index(sq));
    IndexValue(sq);
  }

  lemma Rank7Has(sq: int)
    requires IsSquare(sq)
    ensures Has(RANK_7, sq) <==> Rank(sq) == 6
  {
    Rank7At(Index(sq));
    IndexValue(sq);
  }

  /** FILE_A is the a-file and FILE_H the h-file. */
  lemma FileMasks()
    ensures Squares(FILE_A) == FileSquares(0)
    ensures Squares(FILE_H) == FileSquares(7)
  {
    forall sq | IsSquare(sq)
      ensures Has(FILE_A, sq) <==> File(sq) == 0
      ensures Has(FILE_H, sq) <==> File(sq) == 7
    {
      FileAHas(sq);
      FileHHas(sq);
    }
  }

  /** RANK_2 is squares 8..15 and RANK_7 squares 48..55. */
  lemma RankMasks()
    ensures Squares(RANK_2) == RankSquares(1)
    ensures Squares(RANK_7) == RankSquares(6)
    ensures forall sq :: sq in Squares(RANK_2) <==> 8 <= sq <= 15
    ensures forall sq :: sq in Squares(RANK_7) <==> 48 <= sq <= 55
  {
    forall sq | IsSquare(sq)
      ensures Has(RANK_2, sq) <==> Rank(sq) == 1
      ensures Has(RANK_7, sq) <==> Rank(sq) == 6
    {
      Rank2Has(sq);
      Rank7Has(sq);
    }
  }

  // ---------------------------------------------------------------------
  // A non-empty bitboard holds a square; equal square sets are equal words

  lemma ByteBit(x: Bitboard) returns (s: bv6)
    requires x & 0xFF != 0
    ensures s < 8 && HasAt(x, s)
  {
    if HasAt(x, 0) { s := 0; } else if HasAt(x, 1) { s := 1; }
    else if HasAt(x, 2) { s := 2; } else if HasAt(x, 3) { s := 3; }
    else if HasAt(x, 4) { s := 4; } else if HasAt(x, 5) { s := 5; }
    else if HasAt(x, 6) { s := 6; } else { s := 7; }
  }

  lemma ByteShift(b: Bitboard, k: bv6, s: bv6)
    requires k == 8 || k == 16 || k == 24 || k == 32 || k == 40 || k == 48 || k == 56
    requires s < 8
    ensures HasAt(b >> k, s) <==> HasAt(b, s + k)
  {}

  lemma Bytes(b: Bitboard)
    requires b != 0
    ensures b & 0xFF != 0 || (b >> 8) & 0xFF != 0 || (b >> 16) & 0xFF != 0 || (b >> 24) & 0xFF != 0
         || (b >> 32) & 0xFF != 0 || (b >> 40) & 0xFF != 0 || (b >> 48) & 0xFF != 0 || (b >> 56) & 0xFF != 0
  {}

  lemma ByteAt(b: Bitboard, k: bv6) returns (s: bv6)
    requires k == 8 || k == 16 || k == 24 || k == 32 || k == 40 || k == 48 || k == 56
    requires (b >> k) & 0xFF != 0
    ensures HasAt(b, s)
  {
    var t := ByteBit(b >> k);
    ByteShift(b, k, t);
    s := t + k;
  }

  lemma SomeBit(b: Bitboard) returns (s: bv6)
    requires b != 0
    ensures HasAt(b, s)
  {
    Bytes(b);
    if b & 0xFF != 0 { s := ByteBit(b); }
    else if (b >> 8) & 0xFF != 0 { s := ByteAt(b, 8); }
    else if (b >> 16) & 0xFF != 0 { s := ByteAt(b, 16); }
    else if (b >> 24) & 0xFF != 0 { s := ByteAt(b, 24); }
    else if (b >> 32) & 0xFF != 0 { s := ByteAt(b, 32); }
    else if (b >> 40) & 0xFF != 0 { s := ByteAt(b, 40); }
    else if (b >> 48) & 0xFF != 0 { s := ByteAt(b, 48); }
    else { s := ByteAt(b, 56); }
  }

  /** A bitboard is zero exactly when it holds no square. */
  lemma EmptyIffZero(b: Bitboard)
    ensures Squares(b) == {} <==> b == 0
  {
    if b == 0 {
      ZeroSquares();
    } else {
      var s := SomeBit(b);
      IndexOf(s);
      assert s as int in Squares(b);
    }
  }

  /** A square common to two bitboards makes their and non-zero. */
  lemma AndMeets(x: Bitboard, y: Bitboard, sq: int)
    requires sq in Squares(x) && sq in Squares(y)
    ensures x & y != 0
  {
    AndSquares(x, y);
    EmptyIffZero(x & y);
    assert sq in Squares(x & y);
  }

  /** A non-zero and has a square common to both bitboards. */
  lemma AndWitness(x: Bitboard, y: Bitboard) returns (sq: int)
    requires x & y != 0
    ensures sq in Squares(x) && sq in Squares(y)
  {
    AndSquares(x, y);
    EmptyIffZero(x & y);
    sq :| sq in Squares(x & y);
  }

  /** A mask whose squares are `A` meets `pieces` exactly when a square of
      `A` holds one of them. */
  lemma MaskMeets(m: Bitboard, pieces: Bitboard, A: set<int>)
    requires Squares(m) == A
    ensures m & pieces != 0 <==> exists t :: t in A && t in Squares(pieces)
  {
    if exists t :: t in A && t in Squares(pieces) {
      var t :| t in A && t in Squares(pieces);
      AndMeets(m, pieces, t);
    }
    if m & pieces != 0 {
      var t := AndWitness(m, pieces);
      assert t in A;
    }
  }

  lemma XorAt(x: Bitboard, y: Bitboard, s: bv6)
    ensures HasAt(x ^ y, s) <==> HasAt(x, s) != HasAt(y, s)
  {}

  lemma XorZero(x: Bitboard, y: Bitboard)
    ensures x ^ y == 0 <==> x == y
  {}

  /** Different bitboards differ on some square. */
  lemma SquaresDiffer(x: Bitboard, y: Bitboard)
    requires x != y
    ensures Squares(x) != Squares(y)
  {
    XorZero(x, y);
    var s := SomeBit(x ^ y);
    XorAt(x, y, s);
    IndexOf(s);
    assert (s as int in Squares(x)) != (s as int in Squares(y));
  }

  /** A bitboard is determined by its squares. */
  lemma SquaresInjective(x: Bitboard, y: Bitboard)
    requires Squares(x) == Squares(y)
    ensures x == y
  {
    if x != y {
      SquaresDiffer(x, y);
    }
  }

  /** Two bitboards holding the same squares are equal. */
  lemma SameSquares(x: Bitboard, y: Bitboard)
    requires forall sq :: IsSquare(sq) ==> (Has(x, sq) <==> Has(y, sq))
    ensures x == y
  {
    assert Squares(x) == Squares(y);
    SquaresInjective(x, y);
  }

  // ---------------------------------------------------------------------
  // lsb, poplsb, popcount

  /** The lowest square at or above `i` that `b` holds. */
  function LowestFrom(b: Bitboard, i: int): (k: int)
    requires IsSquare(i)
    requires exists j :: i <= j < 64 && Has(b, j)
    ensures i <= k < 64 && Has(b, k)
    decreases 64 - i
  {
    if Has(b, i) then i else LowestFrom(b, i + 1)
  }

  /** No square from `i` up to the one `LowestFrom` finds is held. */
  lemma {:induction false} LowestFromFirst(b: Bitboard, i: int, j: int)
    requires IsSquare(i) && exists j :: i <= j < 64 && Has(b, j)
    requires i <= j < LowestFrom(b, i)
    ensures !Has(b, j)
    decreases 64 - i
  {
    if j > i {
      LowestFromFirst(b, i + 1, j);
    }
  }

  /** `lsb(b)` (count of trailing zeros): the lowest square of a non-zero
      bitboard. */
  function Lsb(b: Bitboard): (k: int)
    requires b != 0
    ensures IsSquare(k) && k in Squares(b)
    ensures forall j :: j in Squares(b) ==> k <= j
  {
    EmptyIffZero(b);
    assert exists j :: 0 <= j < 64 && Has(b, j);
    var k := LowestFrom(b, 0);
    forall j | j in Squares(b) ensures k <= j {
      if j < k {
        LowestFromFirst(b, 0, j);
      }
    }
    k
  }

  lemma IsolateNonZero(b: Bitboard)
    requires b != 0
    ensures b & (0 - b) != 0
  {}

  lemma IsolateHas(b: Bitboard, s: bv6)
    requires HasAt(b & (0 - b), s)
    ensures HasAt(b, s)
  {}

  lemma IsolateBelow(b: Bitboard, s: bv6, t: bv6)
    requires HasAt(b & (0 - b), s) && t < s
    ensures !HasAt(b, t)
  {}

  lemma IsolateClear(b: Bitboard, s: bv6)
    requires HasAt(b & (0 - b), s)
    ensures b & (b - 1) == b & !BitAt(s)
  {}

  /** The bit that `b & -b` isolates is the lowest square. */
  lemma IsolateIsLsb(b: Bitboard, s: bv6)
    requires b != 0 && HasAt(b & (0 - b), s)
    ensures Lsb(b) == s as int
  {
    IsolateHas(b, s);
    IndexOf(s);
    assert s as int in Squares(b);
    var k := Lsb(b);
    if k < s as int {
      IndexLe(k, s as int);
      IndexInj(k, s as int);
      IsolateBelow(b, s, Index(k));
    }
  }

  /** `b & (b - 1)` removes exactly the lowest square. */
  lemma ClearLowest(b: Bitboard)
    requires b != 0
    ensures Squares(b & (b - 1)) == Squares(b) - {Lsb(b)}
  {
    IsolateNonZero(b);
    var s := SomeBit(b & (0 - b));
    IsolateIsLsb(b, s);
    IsolateClear(b, s);
    IndexOf(s);
    ClearSquares(b, s as int);
  }

  /** The lowest square of a one-square bitboard is that square. */
  lemma LsbOfBit(k: int)
    requires IsSquare(k)
    ensures Bit(k) != 0 && Lsb(Bit(k)) == k
  {
    BitSquares(k);
    EmptyIffZero(Bit(k));
  }

  /** `l` lists the squares of `S` once each, in ascending order. */
  predicate Enumerates(l: seq<int>, S: set<int>)
  {
    && |l| == |S|
    && (forall i :: 0 <= i < |l| ==> l[i] in S)
    && (forall x :: x in S ==> x in l)
    && Ascending(l)
  }

  /** Each element of `l` is smaller than the next. */
  predicate Ascending(l: seq<int>)
  {
    |l| <= 1 || (l[0] < l[1] && Ascending(l[1..]))
  }

  lemma EnumeratesCons(S: set<int>, R: set<int>, k: int, t: seq<int>)
    requires k in S && R == S - {k}
    requires forall x :: x in S ==> k <= x
    requires Enumerates(t, R)
    ensures Enumerates([k] + t, S)
  {
    var l := [k] + t;
    assert l[1..] == t;
    if t != [] {
      assert t[0] in R;
    }
    forall x | x in S
      ensures x in l
    {
      if x != k {
        assert x in R;
        var n :| 0 <= n < |t| && t[n] == x;
        assert l[n + 1] == x;
      }
    }
  }

  /** The squares of `b` in the order repeated `poplsb` visits them. */
  function SquareList(b: Bitboard): (l: seq<int>)
    ensures Enumerates(l, Squares(b))
    decreases |Squares(b)|
  {
    if b == 0 then
      ZeroSquares();
      []
    else
      ClearLowest(b);
      var t := SquareList(b & (b - 1));
      EnumeratesCons(Squares(b), Squares(b & (b - 1)), Lsb(b), t);
      [Lsb(b)] + t
  }

  /** `popcount(b)`: the number of squares `b` holds. */
  function Popcount(b: Bitboard): (n: nat)
    ensures n == 0 <==> b == 0
  {
    PopcountAfter(b, 1)
  }

  /** `Popcount` behind `k` trivial steps, so that the set of squares is
      unfolded only where a proof asks for it (`PopcountIs`). */
  function PopcountAfter(b: Bitboard, k: nat): (n: nat)
    ensures n == 0 <==> b == 0
  {
    if k == 0 then
      EmptyIffZero(b);
      |Squares(b)|
    else PopcountAfter(b, k - 1)
  }

  /** The population count is the number of squares held. */
  lemma PopcountIs(b: Bitboard)
    ensures Popcount(b) == |Squares(b)|
  {
    assert PopcountAfter(b, 1) == PopcountAfter(b, 0);
  }

  /** `poplsb(b)`: returns `1ULL << lsb(b)` and clears that bit of `b`,
      leaving every other bit alone; the rest of the drain order follows. */
  method PopLsb(b: Bitboard) returns (mask: Bitboard, rest: Bitboard)
    requires b != 0
    ensures mask == Bit(Lsb(b)) && rest == b & (b - 1)
    ensures Squares(rest) == Squares(b) - {Lsb(b)}
    ensures SquareList(b) == [Lsb(b)] + SquareList(rest)
  {
    var s := Lsb(b);
    ClearLowest(b);
    rest := b & (b - 1);
    mask := Bit(s);
  }

  lemma Advance(v: seq<int>, x: int, A: seq<int>, B: seq<int>, C: seq<int>)
    requires v + A == C && A == [x] + B
    ensures (v + [x]) + B == C
  {}

  /** Draining a bitboard with `poplsb` until it is empty visits each of its
      squares once, in ascending order, in `popcount(b)` rounds. */
  method Drain(b: Bitboard) returns (visited: seq<int>)
    ensures visited == SquareList(b)
  {
    var tmp := b;
    visited := [];
    while tmp != 0
      invariant visited + SquareList(tmp) == SquareList(b)
      decreases |Squares(tmp)|
    {
      var mask, rest := PopLsb(tmp);
      LsbOfBit(Lsb(tmp));
      Advance(visited, Lsb(mask), SquareList(tmp), SquareList(rest), SquareList(b));
      visited := visited + [Lsb(mask)];
      tmp := rest;
    }
    assert SquareList(tmp) == [];
  }

  /** The drain order lists each square of `b` once, ascending, and takes
      `popcount(b)` rounds. */
  lemma DrainOrder(b: Bitboard)
    ensures Enumerates(SquareList(b), Squares(b))
    ensures |SquareList(b)| == Popcount(b)
  {
    PopcountIs(b);
  }

  // ---------------------------------------------------------------------
  // Clearing and setting one square, square by square

  lemma SetAt(b: Bitboard, k: bv6, s: bv6)
    ensures HasAt(b | BitAt(k), s) <==> HasAt(b, s) || s == k
  {}

  /** `b & ~(1ULL << k)` holds the squares of `b` other than k. */
  lemma ClearHas(b: Bitboard, k: int, sq: int)
    requires IsSquare(k) && IsSquare(sq)
    ensures Has(b & !Bit(k), sq) <==> Has(b, sq) && sq != k
  {
    IndexInj(k, sq);
    ClearAt(b, Index(k), Index(sq));
  }

  /** `b | (1ULL << k)` holds the squares of `b` and k. */
  lemma SetHas(b: Bitboard, k: int, sq: int)
    requires IsSquare(k) && IsSquare(sq)
    ensures Has(b | Bit(k), sq) <==> Has(b, sq) || sq == k
  {
    IndexInj(k, sq);
    SetAt(b, Index(k), Index(sq));
  }
}
