/**
 * Move ordering (src/search.cpp:14-41, 63-66): the most-valuable-victim /
 * least-valuable-attacker key of a move and the stable sort of a move list
 * by descending key that `std::stable_sort` performs with the comparator
 * `mvvLva(b, a) > mvvLva(b, z)`.  The sort is specified by an insertion
 * sort; its result is proved to be a permutation, in descending key order,
 * with the moves of equal key in their original order.
 */
module Ordering {
  import opened Bits
  import opened Types
  import opened Positions
  import opened Generation

  /** `pieceValueForMVV(p)`: 100, 320, 330, 500, 900 for pawns to queens of
      either colour, 0 for kings and anything else. */
  function MvvValue(piece: int): (v: int)
    ensures 0 <= v <= 900
    ensures v != 0 <==> IsPiece(piece) && piece % 6 != 5
  {
    if piece == WP || piece == BP then 100
    else if piece == WN || piece == BN then 320
    else if piece == WB || piece == BB then 330
    else if piece == WR || piece == BR then 500
    else if piece == WQ || piece == BQ then 900
    else 0
  }

  /** The value depends on the kind only, not on the colour. */
  lemma MvvValueColourBlind(c: Color, kind: int)
    requires 0 <= kind < 6
    ensures MvvValue(PieceOf(c, kind)) == MvvValue(PieceOf(Other(c), kind))
    ensures MvvValue(PieceOf(c, kind)) == [100, 320, 330, 500, 900, 0][kind]
  {
  }

  /** `isCapture(b, m)`: an opponent piece stands on the target square, or
      the move is flagged en passant. */
  function IsCapture(p: Position, m: Move): bool
    requires Shaped(p) && IsSquare(m.to)
  {
    Has(SideUnion(p.pcs, Other(p.stm)), m.to) || IsEnPassant(m)
  }

  /** On a position whose bitboards are disjoint, `isCapture` holds exactly
      when the target holds a piece of the side not to move, or the move is
      en passant. */
  lemma IsCaptureIff(p: Position, m: Move)
    requires Valid(p) && IsSquare(m.to)
    ensures IsCapture(p, m) <==>
      (PieceAt(p.pcs, m.to) != NO_PIECE && ColorOf(PieceAt(p.pcs, m.to)) == Other(p.stm))
      || IsEnPassant(m)
  {
    OccOfFine(p.pcs);
    OccSideHas(p.pcs, OccOf(p.pcs), AllOcc(p.pcs), Other(p.stm), m.to);
  }

  /** `mvvLva(b, m)`: 0 for a move that is not a capture; otherwise ten
      times the victim's value (a pawn for en passant) less the attacker's. */
  function MvvLva(p: Position, m: Move): (key: int)
    requires Shaped(p) && IsSquare(m.from) && IsSquare(m.to)
    ensures -900 <= key <= 9000
  {
    if !IsCapture(p, m) then 0
    else
      var victim := if IsEnPassant(m) then PieceOf(Other(p.stm), 0) else PieceAt(p.pcs, m.to);
      MvvValue(victim) * 10 - MvvValue(PieceAt(p.pcs, m.from))
  }

  /** Every capture of a piece other than a king keys above every quiet
      move, so captures are searched first; an en-passant capture keys as a
      pawn taken. */
  lemma CapturesFirst(p: Position, m: Move, quiet: Move)
    requires Valid(p) && IsSquare(m.from) && IsSquare(m.to) && IsSquare(quiet.from) && IsSquare(quiet.to)
    requires IsCapture(p, m) && !IsCapture(p, quiet)
    requires IsEnPassant(m) || PieceAt(p.pcs, m.to) % 6 != 5
    ensures MvvLva(p, quiet) == 0 < MvvLva(p, m)
    ensures IsEnPassant(m) ==> MvvLva(p, m) == 1000 - MvvValue(PieceAt(p.pcs, m.from))
  {
    IsCaptureIff(p, m);
  }

  // ---------------------------------------------------------------------
  // The stable sort

  /** The sort key of a move: `mvvLva` (every move the generator produces
      is on the board, where the two agree). */
  function Key(p: Position, m: Move): int
  {
    if Shaped(p) && IsSquare(m.from) && IsSquare(m.to) then MvvLva(p, m) else 0
  }

  /** No move sorts after one with a smaller key. */
  ghost predicate Descending(p: Position, s: seq<Move>)
  {
    forall i, j :: 0 <= i < j < |s| ==> Key(p, s[i]) >= Key(p, s[j])
  }

  /** Insert `x` into `s` after every move whose key is at least its own. */
  function Insert(p: Position, x: Move, s: seq<Move>): (r: seq<Move>)
    ensures |r| == |s| + 1
  {
    if s == [] then [x]
    else if Key(p, s[0]) < Key(p, x) then [x] + s
    else [s[0]] + Insert(p, x, s[1..])
  }

  /** `std::stable_sort` with comparator `mvvLva(a) > mvvLva(z)`. */
  function SortMoves(p: Position, l: seq<Move>): (r: seq<Move>)
    ensures |r| == |l|
  {
    if l == [] then [] else Insert(p, l[|l| - 1], SortMoves(p, l[..|l| - 1]))
  }

  lemma {:induction false} InsertPerm(p: Position, x: Move, s: seq<Move>)
    ensures multiset(Insert(p, x, s)) == multiset(s) + multiset{x}
  {
    if s != [] && Key(p, s[0]) >= Key(p, x) {
      InsertPerm(p, x, s[1..]);
      assert s == [s[0]] + s[1..];
    }
  }

  /** The sort only reorders: it is a permutation of its input. */
  lemma {:induction false} SortPerm(p: Position, l: seq<Move>)
    ensures multiset(SortMoves(p, l)) == multiset(l)
  {
    if l != [] {
      SortPerm(p, l[..|l| - 1]);
      InsertPerm(p, l[|l| - 1], SortMoves(p, l[..|l| - 1]));
      assert l == l[..|l| - 1] + [l[|l| - 1]];
    }
  }

  /** Sorting keeps exactly the moves of the input. */
  lemma SortHas(p: Position, l: seq<Move>, m: Move)
    ensures m in SortMoves(p, l) <==> m in l
  {
    SortPerm(p, l);
    assert m in SortMoves(p, l) <==> m in multiset(SortMoves(p, l));
  }

  /** A descending list stays descending without its head. */
  lemma DescendingTail(p: Position, s: seq<Move>)
    requires s != [] && Descending(p, s)
    ensures Descending(p, s[1..])
  {
    var t := s[1..];
    forall i, j | 0 <= i < j < |t| ensures Key(p, t[i]) >= Key(p, t[j]) {
      assert t[i] == s[i + 1] && t[j] == s[j + 1];
    }
  }

  lemma {:induction false} InsertDescending(p: Position, x: Move, s: seq<Move>)
    requires Descending(p, s)
    ensures Descending(p, Insert(p, x, s))
    ensures s != [] && Key(p, s[0]) >= Key(p, x) ==> Insert(p, x, s)[0] == s[0]
  {
    if s != [] && Key(p, s[0]) >= Key(p, x) {
      var t := s[1..];
      DescendingTail(p, s);
      InsertDescending(p, x, t);
      var r := Insert(p, x, s);
      var rt := Insert(p, x, t);
      assert r == [s[0]] + rt;
      forall i, j | 0 <= i < j < |r| ensures Key(p, r[i]) >= Key(p, r[j]) {
        if i == 0 {
          assert r[j] == rt[j - 1];
          InsertedKey(p, x, t, j - 1);
          if rt[j - 1] != x {
            assert Key(p, s[0]) >= Key(p, rt[j - 1]) by { InsertFrom(p, x, t, j - 1, s); }
          }
        } else {
          assert r[i] == rt[i - 1] && r[j] == rt[j - 1];
        }
      }
    }
  }

  /** Every member of `Insert(p, x, t)` is `x` or a member of `t`. */
  lemma {:induction false} InsertedKey(p: Position, x: Move, t: seq<Move>, k: int)
    requires 0 <= k < |t| + 1
    ensures Insert(p, x, t)[k] == x || Insert(p, x, t)[k] in t
  {
    InsertPerm(p, x, t);
    var r := Insert(p, x, t);
    assert r[k] in multiset(r);
  }

  /** A member of `Insert(p, x, t)` other than `x` comes from `t`, whose
      keys `s[0]` bounds when `t == s[1..]` of a descending `s`. */
  lemma InsertFrom(p: Position, x: Move, t: seq<Move>, k: int, s: seq<Move>)
    requires s != [] && t == s[1..] && Descending(p, s) && 0 <= k < |t| + 1
    requires Insert(p, x, t)[k] != x
    ensures Key(p, s[0]) >= Key(p, Insert(p, x, t)[k])
  {
    InsertedKey(p, x, t, k);
    var y := Insert(p, x, t)[k];
    var n :| 0 <= n < |t| && t[n] == y;
    assert s[n + 1] == y;
  }

  /** The sort puts the keys in descending order. */
  lemma {:induction false} SortDescending(p: Position, l: seq<Move>)
    ensures Descending(p, SortMoves(p, l))
  {
    if l != [] {
      SortDescending(p, l[..|l| - 1]);
      InsertDescending(p, l[|l| - 1], SortMoves(p, l[..|l| - 1]));
    }
  }

  /** The moves of `s` whose key is `k`, in order. */
  function WithKey(p: Position, s: seq<Move>, k: int): seq<Move>
  {
    if s == [] then [] else WithKey(p, s[..|s| - 1], k) + (if Key(p, s[|s| - 1]) == k then [s[|s| - 1]] else [])
  }

  lemma {:induction false} WithKeyCons(p: Position, y: Move, s: seq<Move>, k: int)
    ensures WithKey(p, [y] + s, k) == (if Key(p, y) == k then [y] else []) + WithKey(p, s, k)
    decreases |s|
  {
    if s != [] {
      var ys := [y] + s;
      assert ys[..|ys| - 1] == [y] + s[..|s| - 1];
      assert ys[|ys| - 1] == s[|s| - 1];
      WithKeyCons(p, y, s[..|s| - 1], k);
    } else {
      assert [y] + s == [y];
      assert [y][..0] == [];
    }
  }

  /** None of the moves of `s` has a key above `k`: `WithKey` of a larger
      key is empty. */
  lemma {:induction false} WithKeyNone(p: Position, s: seq<Move>, k: int)
    requires forall i :: 0 <= i < |s| ==> Key(p, s[i]) < k
    ensures WithKey(p, s, k) == []
  {
    if s != [] {
      WithKeyNone(p, s[..|s| - 1], k);
    }
  }

  /** Inserting `x` into a descending list appends it to the moves of its
      key and leaves the moves of every other key as they were. */
  lemma {:induction false} InsertStable(p: Position, x: Move, s: seq<Move>, k: int)
    requires Descending(p, s)
    ensures WithKey(p, Insert(p, x, s), k) == WithKey(p, s, k) + (if Key(p, x) == k then [x] else [])
  {
    if s == [] {
      assert Insert(p, x, s) == [x] + [];
      WithKeyCons(p, x, [], k);
    } else if Key(p, s[0]) < Key(p, x) {
      InsertFrontStable(p, x, s, k);
    } else {
      var t := s[1..];
      DescendingTail(p, s);
      InsertStable(p, x, t, k);
      InsertLaterStable(p, x, s, k);
    }
  }

  /** `x` goes in front of a descending list whose keys are all below its
      own: no move of its key precedes it. */
  lemma InsertFrontStable(p: Position, x: Move, s: seq<Move>, k: int)
    requires Descending(p, s) && s != [] && Key(p, s[0]) < Key(p, x)
    ensures WithKey(p, Insert(p, x, s), k) == WithKey(p, s, k) + (if Key(p, x) == k then [x] else [])
  {
    WithKeyCons(p, x, s, k);
    if Key(p, x) == k {
      forall i | 0 <= i < |s| ensures Key(p, s[i]) < k {
        if i > 0 { assert Key(p, s[0]) >= Key(p, s[i]); }
      }
      WithKeyNone(p, s, k);
    }
  }

  /** `x` goes after the head of `s`: the head's key stays in front. */
  lemma InsertLaterStable(p: Position, x: Move, s: seq<Move>, k: int)
    requires s != [] && Key(p, s[0]) >= Key(p, x)
    requires WithKey(p, Insert(p, x, s[1..]), k) == WithKey(p, s[1..], k) + (if Key(p, x) == k then [x] else [])
    ensures WithKey(p, Insert(p, x, s), k) == WithKey(p, s, k) + (if Key(p, x) == k then [x] else [])
  {
    var t := s[1..];
    WithKeyCons(p, s[0], Insert(p, x, t), k);
    WithKeyCons(p, s[0], t, k);
    assert s == [s[0]] + t;
  }

  /** Stability: the moves of each key come out of the sort in the order
      they went in. */
  lemma {:induction false} SortStable(p: Position, l: seq<Move>, k: int)
    ensures WithKey(p, SortMoves(p, l), k) == WithKey(p, l, k)
  {
    if l != [] {
      var init := l[..|l| - 1];
      SortStable(p, init, k);
      SortDescending(p, init);
      InsertStable(p, l[|l| - 1], SortMoves(p, init), k);
    }
  }
}
