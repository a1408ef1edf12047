/**
 * What the search of src/search.cpp computes, as functions of the
 * position: the fail-soft alpha-beta negamax over the MVV-LVA ordered
 * legal moves (`AlphaBeta`), the plain negamax value it is measured
 * against (`Value`), the root choice `chooseBestMove` and `search_root`
 * share (`RootChoice`), and the principal variation `search_root` walks
 * (`RootSearch`).
 */
module Minimax {
  import opened Types
  import opened Positions
  import opened Attacks
  import opened Generation
  import opened Evaluation
  import opened Ordering

  /** The score bound of the root window, and what no legal move scores. */
  const INF := 10000000
  /** The score of being checkmated at ply 0; a mate `ply` plies from the
      root scores `ply - MATE`, so a faster mate is worth more to the
      winner. */
  const MATE := 100000

  /** The capture order and the evaluation value the pieces alike. */
  lemma MvvIsMaterialValue(piece: int)
    requires IsPiece(piece)
    ensures MvvValue(piece) == PieceValue(piece)
  {
  }

  // ---------------------------------------------------------------------
  // The order moves are searched in

  /** The legal moves of `p` in the order the search tries them: the
      generated list stable-sorted by decreasing MVV-LVA key
      (`OrderedIs`). */
  ghost function Ordered(p: Position): (l: seq<Move>)
    requires Generable(p)
    ensures |l| == |Generated(p)| && forall m :: m in l ==> m in Generated(p)
  {
    OrderedAfter(p, 1)
  }

  /** `Ordered` behind `n` trivial steps, so that the sort is unfolded only
      where a proof asks for it. */
  ghost function OrderedAfter(p: Position, n: nat): (l: seq<Move>)
    requires Generable(p)
    ensures |l| == |Generated(p)| && forall m :: m in l ==> m in Generated(p)
  {
    if n == 0 then
      OrderedHasAll(p);
      SortMoves(p, Generated(p))
    else OrderedAfter(p, n - 1)
  }

  lemma OrderedHasAll(p: Position)
    requires Generable(p)
    ensures forall m :: m in SortMoves(p, Generated(p)) <==> m in Generated(p)
  {
    forall m {
      SortHas(p, Generated(p), m);
    }
  }

  /** The search order is the generated moves stable-sorted: a permutation
      of them, by decreasing MVV-LVA key, keeping generation order among
      equal keys. */
  lemma OrderedIs(p: Position)
    requires Generable(p)
    ensures Ordered(p) == SortMoves(p, Generated(p))
    ensures multiset(Ordered(p)) == multiset(Generated(p))
    ensures forall m :: m in Ordered(p) <==> m in Generated(p)
    ensures Descending(p, Ordered(p))
    ensures forall k :: WithKey(p, Ordered(p), k) == WithKey(p, Generated(p), k)
  {
    assert OrderedAfter(p, 1) == OrderedAfter(p, 0);
    SortPerm(p, Generated(p));
    SortDescending(p, Generated(p));
    OrderedHasAll(p);
    forall k {
      SortStable(p, Generated(p), k);
    }
  }

  /** What a position without legal moves scores: mated, or stalemate. */
  function NoMoveScore(p: Position, ply: int): int
    requires Shaped(p)
  {
    if InCheckWith(p.pcs, AllOcc(p.pcs), p.stm) then -MATE + ply else 0
  }

  // ---------------------------------------------------------------------
  // Plain negamax

  /** The negamax value of `p` searched `depth` plies deep at `ply` plies
      from the root, with no pruning and the moves in generation order:
      the evaluation at depth 0, the mate or stalemate score without legal
      moves, and otherwise the best negated value of a child. */
  ghost function Value(p: Position, ply: int, depth: nat): int
    requires Searchable(p, depth)
    decreases depth, 3, 0
  {
    if depth == 0 then Evaluate(p.pcs, p.stm)
    else if Generated(p) == [] then NoMoveScore(p, ply)
    else BestOf(p, ply, depth, Generated(p), 0, -INF)
  }

  /** `best` raised to the negated child values of the moves `l[i..]`. */
  ghost function BestOf(p: Position, ply: int, depth: nat, l: seq<Move>, i: nat, best: int): int
    requires 0 < depth && Searchable(p, depth) && i <= |l|
    requires forall m :: m in l ==> m in Generated(p)
    decreases depth, 2, |l| - i
  {
    if i == |l| then best
    else
      SearchableBelow(p, depth);
      var t := -ChildValue(p, ply, depth - 1, l[i]);
      BestOf(p, ply, depth, l, i + 1, if t > best then t else best)
  }

  /** The value one ply above `d` of the generated move `m`: the value of
      the position it makes, from the opponent's side. */
  ghost function ChildValue(p: Position, ply: int, d: nat, m: Move): int
    requires Searchable(p, d + 1) && m in Generated(p)
    decreases d + 1, 1, 0
  {
    ChildValueAfter(p, ply, d, m, 1)
  }

  /** `ChildValue` behind `n` trivial steps, so that the proofs about the
      loop over the children see a child's value as a plain number. */
  ghost function ChildValueAfter(p: Position, ply: int, d: nat, m: Move, n: nat): int
    requires Searchable(p, d + 1) && m in Generated(p)
    decreases d + 1, 0, n
  {
    if n == 0 then
      SearchableChild(p, d + 1, m);
      Value(Make(p, m), ply + 1, d)
    else ChildValueAfter(p, ply, d, m, n - 1)
  }

  lemma ChildValueIs(p: Position, ply: int, d: nat, m: Move)
    requires Searchable(p, d + 1) && m in Generated(p)
    ensures CanMake(p, m) && Searchable(Make(p, m), d)
    ensures ChildValue(p, ply, d, m) == Value(Make(p, m), ply + 1, d)
  {
    SearchableChild(p, d + 1, m);
    assert ChildValueAfter(p, ply, d, m, 1) == ChildValueAfter(p, ply, d, m, 0);
  }

  // ---------------------------------------------------------------------
  // negamax with alpha-beta

  /** A search result: the score and the leaves counted. */
  datatype Outcome = Outcome(score: int, nodes: nat)

  /** What `negamax(b, depth, alpha, beta, nodeCount)` returns and how many
      nodes it adds: a leaf (depth 0, or no legal moves) counts one; an
      inner node searches its ordered moves with the window narrowed by
      the best score so far and stops at the first score reaching `beta`. */
  ghost function AlphaBeta(p: Position, ply: int, depth: nat, alpha: int, beta: int): Outcome
    requires Searchable(p, depth)
    decreases depth, 3, 0
  {
    if depth == 0 then Outcome(Evaluate(p.pcs, p.stm), 1)
    else if Generated(p) == [] then Outcome(NoMoveScore(p, ply), 1)
    else Scan(p, ply, depth, 0, alpha, beta, -INF, 0)
  }

  /** The loop of `negamax` from the `i`th ordered move on. */
  ghost function Scan(p: Position, ply: int, depth: nat, i: nat, alpha: int, beta: int, best: int, nodes: nat): Outcome
    requires 0 < depth && Searchable(p, depth) && i <= |Ordered(p)|
    decreases depth, 2, |Ordered(p)| - i
  {
    if i == |Ordered(p)| then Outcome(best, nodes)
    else
      SearchableBelow(p, depth);
      var c := ChildSearch(p, ply, depth - 1, Ordered(p)[i], -beta, -alpha);
      var s := -c.score;
      var best' := if s > best then s else best;
      var alpha' := if s > alpha then s else alpha;
      if alpha' >= beta then Outcome(best', nodes + c.nodes)
      else Scan(p, ply, depth, i + 1, alpha', beta, best', nodes + c.nodes)
  }

  /** The search one ply above `d` of the generated move `m`. */
  ghost function ChildSearch(p: Position, ply: int, d: nat, m: Move, alpha: int, beta: int): Outcome
    requires Searchable(p, d + 1) && m in Generated(p)
    decreases d + 1, 1, 0
  {
    ChildSearchAfter(p, ply, d, m, alpha, beta, 1)
  }

  /** `ChildSearch` behind `n` trivial steps. */
  ghost function ChildSearchAfter(p: Position, ply: int, d: nat, m: Move, alpha: int, beta: int, n: nat): Outcome
    requires Searchable(p, d + 1) && m in Generated(p)
    decreases d + 1, 0, n
  {
    if n == 0 then
      SearchableChild(p, d + 1, m);
      AlphaBeta(Make(p, m), ply + 1, d, alpha, beta)
    else ChildSearchAfter(p, ply, d, m, alpha, beta, n - 1)
  }

  lemma ChildSearchIs(p: Position, ply: int, d: nat, m: Move, alpha: int, beta: int)
    requires Searchable(p, d + 1) && m in Generated(p)
    ensures CanMake(p, m) && Searchable(Make(p, m), d)
    ensures ChildSearch(p, ply, d, m, alpha, beta) == AlphaBeta(Make(p, m), ply + 1, d, alpha, beta)
  {
    SearchableChild(p, d + 1, m);
    assert ChildSearchAfter(p, ply, d, m, alpha, beta, 1) == ChildSearchAfter(p, ply, d, m, alpha, beta, 0);
  }

  // ---------------------------------------------------------------------
  // Fail-soft alpha-beta finds the negamax value

  /** How a fail-soft score `v` for the window (`alpha`, `beta`) bounds the
      true value `w`: an upper bound at or below `alpha`, a lower bound at
      or above `beta`, the value itself strictly inside. */
  ghost predicate FailSoftBound(v: int, w: int, alpha: int, beta: int)
  {
    (v <= alpha ==> w <= v) && (beta <= v ==> v <= w) && (alpha < v < beta ==> v == w)
  }

  /** Pruning and move ordering never change a score inside the window,
      and a score outside it bounds the true value from the right side. */
  lemma {:induction false} FailSoft(p: Position, ply: int, depth: nat, alpha: int, beta: int)
    requires Searchable(p, depth) && -INF <= alpha < beta <= INF
    ensures FailSoftBound(AlphaBeta(p, ply, depth, alpha, beta).score, Value(p, ply, depth), alpha, beta)
    decreases depth, 3, 0
  {
    if depth != 0 && Generated(p) != [] {
      ScanSound(p, ply, depth, 0, alpha, alpha, beta, -INF, -INF, 0);
      OrderedIs(p);
      SameBest(p, ply, depth, Ordered(p), Generated(p), -INF);
    }
  }

  /** The loop of `negamax` against the plain maximum over the same moves:
      `best` is what the loop holds, `exact` the true maximum so far, which
      `best` bounds, and meets once it exceeds the caller's `alpha0`. */
  lemma {:induction false} ScanSound(p: Position, ply: int, depth: nat, i: nat, alpha0: int, alpha: int, beta: int,
                                     best: int, exact: int, nodes: nat)
    requires 0 < depth && Searchable(p, depth) && i <= |Ordered(p)|
    requires -INF <= alpha0 && alpha == (if best > alpha0 then best else alpha0) && alpha < beta <= INF
    requires exact <= best && (best > alpha0 ==> exact == best)
    ensures FailSoftBound(Scan(p, ply, depth, i, alpha, beta, best, nodes).score,
                          BestOf(p, ply, depth, Ordered(p), i, exact), alpha0, beta)
    decreases depth, 2, |Ordered(p)| - i
  {
    if i < |Ordered(p)| {
      SearchableBelow(p, depth);
      var m := Ordered(p)[i];
      ChildSound(p, ply, depth - 1, m, -beta, -alpha);
      var c := ChildSearch(p, ply, depth - 1, m, -beta, -alpha);
      var s := -c.score;
      var t := -ChildValue(p, ply, depth - 1, m);
      var best' := if s > best then s else best;
      var alpha' := if s > alpha then s else alpha;
      var exact' := if t > exact then t else exact;
      if alpha' >= beta {
        BestOfAtLeast(p, ply, depth, Ordered(p), i + 1, exact');
      } else {
        ScanSound(p, ply, depth, i + 1, alpha0, alpha', beta, best', exact', nodes + c.nodes);
      }
    }
  }

  lemma ChildSound(p: Position, ply: int, d: nat, m: Move, alpha: int, beta: int)
    requires Searchable(p, d + 1) && m in Generated(p) && -INF <= alpha < beta <= INF
    ensures FailSoftBound(ChildSearch(p, ply, d, m, alpha, beta).score, ChildValue(p, ply, d, m), alpha, beta)
    decreases d + 1, 1, 0
  {
    ChildSearchIs(p, ply, d, m, alpha, beta);
    ChildValueIs(p, ply, d, m);
    FailSoft(Make(p, m), ply + 1, d, alpha, beta);
  }

  /** The maximum never falls below where it starts. */
  lemma {:induction false} BestOfAtLeast(p: Position, ply: int, depth: nat, l: seq<Move>, i: nat, best: int)
    requires 0 < depth && Searchable(p, depth) && i <= |l|
    requires forall m :: m in l ==> m in Generated(p)
    ensures best <= BestOf(p, ply, depth, l, i, best)
    decreases |l| - i
  {
    if i < |l| {
      SearchableBelow(p, depth);
      var t := -ChildValue(p, ply, depth - 1, l[i]);
      BestOfAtLeast(p, ply, depth, l, i + 1, if t > best then t else best);
    }
  }

  /** The maximum is at most `x` exactly when the start and every negated
      child value of `l[i..]` are. */
  lemma {:induction false} BestOfAtMost(p: Position, ply: int, d: nat, l: seq<Move>, i: nat, best: int, x: int)
    requires Searchable(p, d + 1) && i <= |l|
    requires forall m :: m in l ==> m in Generated(p)
    ensures BestOf(p, ply, d + 1, l, i, best) <= x
        <==> best <= x && forall m :: m in l[i..] ==> -ChildValue(p, ply, d, m) <= x
    decreases |l| - i
  {
    if i < |l| {
      var t := -ChildValue(p, ply, d, l[i]);
      assert d + 1 - 1 == d;
      assert BestOf(p, ply, d + 1, l, i, best) == BestOf(p, ply, d + 1, l, i + 1, if t > best then t else best);
      assert l[i..] == [l[i]] + l[i + 1..];
      BestOfAtMost(p, ply, d, l, i + 1, if t > best then t else best, x);
      if best <= x && forall m :: m in l[i..] ==> -ChildValue(p, ply, d, m) <= x {
        assert l[i] in l[i..];
        forall m | m in l[i + 1..]
          ensures -ChildValue(p, ply, d, m) <= x
        {
          assert m in l[i..];
        }
      }
    } else {
      assert l[i..] == [];
    }
  }

  /** The maximum does not depend on the order of the moves. */
  lemma SameBest(p: Position, ply: int, depth: nat, l1: seq<Move>, l2: seq<Move>, best: int)
    requires 0 < depth && Searchable(p, depth)
    requires forall m :: m in l1 ==> m in Generated(p)
    requires forall m :: m in l1 <==> m in l2
    ensures BestOf(p, ply, depth, l1, 0, best) == BestOf(p, ply, depth, l2, 0, best)
  {
    var d := depth - 1;
    assert d + 1 == depth;
    var u := BestOf(p, ply, depth, l1, 0, best);
    var v := BestOf(p, ply, depth, l2, 0, best);
    assert l1[0..] == l1 && l2[0..] == l2;
    BestOfAtMost(p, ply, d, l1, 0, best, u);
    BestOfAtMost(p, ply, d, l2, 0, best, u);
    BestOfAtMost(p, ply, d, l1, 0, best, v);
    BestOfAtMost(p, ply, d, l2, 0, best, v);
  }

  /** Unless it stays where it starts, the maximum is the negated value of
      a move of `l[i..]`, and `k` is the first such move. */
  lemma {:induction false} FirstBest(p: Position, ply: int, d: nat, l: seq<Move>, i: nat, best: int) returns (k: nat)
    requires Searchable(p, d + 1) && i <= |l|
    requires forall m :: m in l ==> m in Generated(p)
    requires BestOf(p, ply, d + 1, l, i, best) != best
    ensures i <= k < |l| && -ChildValue(p, ply, d, l[k]) == BestOf(p, ply, d + 1, l, i, best)
    ensures forall j :: i <= j < k ==> -ChildValue(p, ply, d, l[j]) < BestOf(p, ply, d + 1, l, i, best)
    decreases |l| - i
  {
    var t := -ChildValue(p, ply, d, l[i]);
    var best' := if t > best then t else best;
    if t == BestOf(p, ply, d + 1, l, i, best) {
      k := i;
    } else {
      BestOfAtLeast(p, ply, d + 1, l, i + 1, best');
      k := FirstBest(p, ply, d, l, i + 1, best');
    }
  }

  // ---------------------------------------------------------------------
  // Scores stay within the bounds

  /** Within `MATE` plies of the root every negamax value lies strictly
      between the evaluation limits, far inside the root window. */
  lemma {:induction false} ValueBounded(p: Position, ply: int, depth: nat)
    requires Searchable(p, depth) && 0 <= ply && ply + depth <= MATE
    ensures -EVAL_LIMIT < Value(p, ply, depth) < EVAL_LIMIT
    decreases depth, 1
  {
    if depth == 0 {
      EvalBounded(p.pcs, p.stm);
    } else if Generated(p) != [] {
      var d := depth - 1;
      assert d + 1 == depth;
      var l := Generated(p);
      forall m | m in l
        ensures -EVAL_LIMIT < ChildValue(p, ply, d, m) < EVAL_LIMIT
      {
        ChildBounded(p, ply, d, m);
      }
      assert l[0..] == l;
      BestOfAtMost(p, ply, d, l, 0, -INF, EVAL_LIMIT - 1);
      var t := -ChildValue(p, ply, d, l[0]);
      BestOfAtLeast(p, ply, depth, l, 1, if t > -INF then t else -INF);
    }
  }

  lemma ChildBounded(p: Position, ply: int, d: nat, m: Move)
    requires Searchable(p, d + 1) && m in Generated(p) && 0 <= ply && ply + d + 1 <= MATE
    ensures -EVAL_LIMIT < ChildValue(p, ply, d, m) < EVAL_LIMIT
    decreases d + 1, 0
  {
    ChildValueIs(p, ply, d, m);
    ValueBounded(Make(p, m), ply + 1, d);
  }

  /** With the full window (-INF, INF) the search returns the exact negamax
      value. */
  lemma FullWindowExact(p: Position, ply: int, depth: nat)
    requires Searchable(p, depth) && 0 <= ply && ply + depth <= MATE
    ensures AlphaBeta(p, ply, depth, -INF, INF).score == Value(p, ply, depth)
  {
    FailSoft(p, ply, depth, -INF, INF);
    ValueBounded(p, ply, depth);
  }

  // ---------------------------------------------------------------------
  // The root choice

  /** A move choice: the move, its score and the leaves counted. */
  datatype Choice = Choice(move: Move, score: int, nodes: nat)

  /** The move-choosing loop of `chooseBestMove` and `search_root` from the
      `i`th ordered move on: a full-width search of each child with `alpha`
      raised to the best score so far, keeping the first move with the
      highest score. */
  ghost function Pick(p: Position, ply: int, depth: nat, i: nat, alpha: int, best: int, bestMove: Move, nodes: nat): Choice
    requires 0 < depth && Searchable(p, depth) && i <= |Ordered(p)|
    decreases |Ordered(p)| - i
  {
    if i == |Ordered(p)| then Choice(bestMove, best, nodes)
    else
      SearchableBelow(p, depth);
      var m := Ordered(p)[i];
      var c := ChildSearch(p, ply, depth - 1, m, -INF, -alpha);
      var s := -c.score;
      Pick(p, ply, depth, i + 1, if s > alpha then s else alpha,
           if s > best then s else best, if s > best then m else bestMove, nodes + c.nodes)
  }

  /** What `chooseBestMove(b, depth, nodeCount)` returns (with the score
      and the nodes it adds), and what the loop of `search_root` ends with:
      the null move scoring `-INF` when there is no legal move. */
  ghost function RootChoice(p: Position, ply: int, depth: nat): Choice
    requires 0 < depth && Searchable(p, depth)
  {
    RootChoiceAfter(p, ply, depth, 1)
  }

  /** `RootChoice` behind `n` trivial steps, so that it is unfolded only
      where a proof asks for it (`RootChoiceIs`). */
  ghost function RootChoiceAfter(p: Position, ply: int, depth: nat, n: nat): Choice
    requires 0 < depth && Searchable(p, depth)
  {
    if n != 0 then RootChoiceAfter(p, ply, depth, n - 1)
    else Pick(p, ply, depth, 0, -INF, -INF, NullMove, 0)
  }

  /** The root choice is the move-choosing loop run from the first move. */
  lemma RootChoiceIs(p: Position, ply: int, depth: nat)
    requires 0 < depth && Searchable(p, depth)
    ensures RootChoice(p, ply, depth) == Pick(p, ply, depth, 0, -INF, -INF, NullMove, 0)
  {
    assert RootChoiceAfter(p, ply, depth, 1) == RootChoiceAfter(p, ply, depth, 0);
  }

  /** The null move: `search_root` tests a move for it by its squares. */
  predicate IsNull(m: Move)
  {
    m.from == 0 && m.to == 0
  }

  /** Without a legal move the root reports the null move, scoring `-INF`,
      and counts no node. */
  lemma RootNoMoves(p: Position, ply: int, depth: nat)
    requires 0 < depth && Searchable(p, depth) && Generated(p) == []
    ensures RootChoice(p, ply, depth) == Choice(NullMove, -INF, 0)
  {
    RootChoiceIs(p, ply, depth);
  }

  /** The chosen move is the null move or a legal move. */
  lemma RootMove(p: Position, ply: int, depth: nat)
    requires 0 < depth && Searchable(p, depth)
    ensures var c := RootChoice(p, ply, depth); c.move == NullMove || c.move in Generated(p)
  {
    RootChoiceIs(p, ply, depth);
    PickMove(p, ply, depth, 0, -INF, -INF, NullMove, 0);
  }

  lemma {:induction false} PickMove(p: Position, ply: int, depth: nat, i: nat, alpha: int, best: int, bestMove: Move, nodes: nat)
    requires 0 < depth && Searchable(p, depth) && i <= |Ordered(p)|
    requires bestMove == NullMove || bestMove in Generated(p)
    ensures var c := Pick(p, ply, depth, i, alpha, best, bestMove, nodes); c.move == NullMove || c.move in Generated(p)
    decreases |Ordered(p)| - i
  {
    if i < |Ordered(p)| {
      SearchableBelow(p, depth);
      var m := Ordered(p)[i];
      var c := ChildSearch(p, ply, depth - 1, m, -INF, -alpha);
      var s := -c.score;
      PickMove(p, ply, depth, i + 1, if s > alpha then s else alpha,
               if s > best then s else best, if s > best then m else bestMove, nodes + c.nodes);
    }
  }

  /** With a legal move, the root scores the exact negamax value and picks
      the first move in search order whose value it is. */
  lemma RootBest(p: Position, ply: int, d: nat) returns (k: nat)
    requires Searchable(p, d + 1) && Generated(p) != [] && 0 <= ply && ply + d + 1 <= MATE
    ensures k < |Ordered(p)| && RootChoice(p, ply, d + 1).move == Ordered(p)[k]
    ensures RootChoice(p, ply, d + 1).score == Value(p, ply, d + 1) == -ChildValue(p, ply, d, Ordered(p)[k])
    ensures forall j :: 0 <= j < k ==> -ChildValue(p, ply, d, Ordered(p)[j]) < Value(p, ply, d + 1)
  {
    var l := Ordered(p);
    var v := Value(p, ply, d + 1);
    OrderedIs(p);
    SameBest(p, ply, d + 1, l, Generated(p), -INF);
    ValueBounded(p, ply, d + 1);
    assert v == BestOf(p, ply, d + 1, l, 0, -INF);
    k := FirstBest(p, ply, d, l, 0, -INF);
    assert l[0..] == l;
    BestOfAtMost(p, ply, d, l, 0, -INF, v);
    forall m | m in l
      ensures -EVAL_LIMIT < ChildValue(p, ply, d, m) < EVAL_LIMIT
    {
      ChildBounded(p, ply, d, m);
    }
    PickBefore(p, ply, d, 0, k, -INF, NullMove, 0);
    RootChoiceIs(p, ply, d + 1);
  }

  /** Before the first best move `k` the loop's best score stays below the
      value `v`; at `k` it reaches it. */
  lemma {:induction false} PickBefore(p: Position, ply: int, d: nat, i: nat, k: nat, alpha: int, bestMove: Move, nodes: nat)
    requires Searchable(p, d + 1) && i <= k < |Ordered(p)|
    requires forall m :: m in Ordered(p) ==> -EVAL_LIMIT < ChildValue(p, ply, d, m) < EVAL_LIMIT
    requires forall m :: m in Ordered(p) ==> -ChildValue(p, ply, d, m) <= -ChildValue(p, ply, d, Ordered(p)[k])
    requires forall j :: i <= j < k ==> -ChildValue(p, ply, d, Ordered(p)[j]) < -ChildValue(p, ply, d, Ordered(p)[k])
    requires -INF <= alpha < -ChildValue(p, ply, d, Ordered(p)[k])
    ensures var c := Pick(p, ply, d + 1, i, alpha, alpha, bestMove, nodes);
            c.move == Ordered(p)[k] && c.score == -ChildValue(p, ply, d, Ordered(p)[k])
    decreases k - i
  {
    var l := Ordered(p);
    var v := -ChildValue(p, ply, d, l[k]);
    var m := l[i];
    ChildSound(p, ply, d, m, -INF, -alpha);
    var c := ChildSearch(p, ply, d, m, -INF, -alpha);
    var s := -c.score;
    if i < k {
      PickBefore(p, ply, d, i + 1, k, if s > alpha then s else alpha, if s > alpha then m else bestMove, nodes + c.nodes);
    } else {
      PickAfter(p, ply, d, i + 1, v, m, nodes + c.nodes);
    }
  }

  /** Once the best score is the value `v`, no later move replaces the
      chosen one. */
  lemma {:induction false} PickAfter(p: Position, ply: int, d: nat, i: nat, v: int, bestMove: Move, nodes: nat)
    requires Searchable(p, d + 1) && i <= |Ordered(p)|
    requires forall m :: m in Ordered(p) ==> -EVAL_LIMIT < ChildValue(p, ply, d, m) < EVAL_LIMIT
    requires forall m :: m in Ordered(p) ==> -ChildValue(p, ply, d, m) <= v
    requires -INF <= v < INF
    ensures var c := Pick(p, ply, d + 1, i, v, v, bestMove, nodes); c.move == bestMove && c.score == v
    decreases |Ordered(p)| - i
  {
    if i < |Ordered(p)| {
      var m := Ordered(p)[i];
      ChildSound(p, ply, d, m, -INF, -v);
      var c := ChildSearch(p, ply, d, m, -INF, -v);
      PickAfter(p, ply, d, i + 1, v, bestMove, nodes + c.nodes);
    }
  }

  // ---------------------------------------------------------------------
  // search_root and its principal variation

  /** What `search_root` returns: the chosen move, its score, the nodes
      counted and the principal variation. */
  datatype SearchResult = SearchResult(best: Move, score: int, nodes: nat, pv: seq<Move>)

  /** A line of moves, each legal in the position the previous ones make. */
  ghost predicate LegalLine(p: Position, l: seq<Move>)
    decreases |l|
  {
    l == [] || (Generable(p) && l[0] in Generated(p) && CanMake(p, l[0]) && LegalLine(Make(p, l[0]), l[1..]))
  }

  /** The walk of `search_root` from `p`, `d` plies left: the moves
      `chooseBestMove` picks one after another until `d` reaches 0 or it
      finds no move, and the nodes those calls count. */
  ghost function Walk(p: Position, ply: int, d: nat): (r: (seq<Move>, nat))
    requires Searchable(p, d)
    decreases d, 1, 0
  {
    WalkAfter(p, ply, d, 1)
  }

  /** `Walk` behind `n` trivial steps, so that it is unfolded only where a
      proof asks for it (`WalkZero`, `WalkStops`, `WalkGoesOn`). */
  ghost function WalkAfter(p: Position, ply: int, d: nat, n: nat): (r: (seq<Move>, nat))
    requires Searchable(p, d)
    decreases d, 0, n
  {
    if n != 0 then WalkAfter(p, ply, d, n - 1)
    else if d == 0 then ([], 0)
    else
      var c := RootChoice(p, ply, d);
      if IsNull(c.move) then ([], c.nodes)
      else
        RootMove(p, ply, d);
        SearchableChild(p, d, c.move);
        var w := Walk(Make(p, c.move), ply + 1, d - 1);
        ([c.move] + w.0, c.nodes + w.1)
  }

  /** With no ply left the walk plays nothing. */
  lemma WalkZero(p: Position, ply: int)
    requires Searchable(p, 0)
    ensures Walk(p, ply, 0) == ([], 0)
  {
    assert WalkAfter(p, ply, 0, 1) == WalkAfter(p, ply, 0, 0);
  }

  /** The walk stops where `chooseBestMove` finds no move. */
  lemma WalkStops(p: Position, ply: int, d: nat)
    requires 0 < d && Searchable(p, d) && IsNull(RootChoice(p, ply, d).move)
    ensures Walk(p, ply, d) == ([], RootChoice(p, ply, d).nodes)
  {
    assert WalkAfter(p, ply, d, 1) == WalkAfter(p, ply, d, 0);
  }

  /** Otherwise it plays the chosen move, a legal one, and walks on. */
  lemma WalkGoesOn(p: Position, ply: int, d: nat)
    requires 0 < d && Searchable(p, d) && !IsNull(RootChoice(p, ply, d).move)
    ensures var m := RootChoice(p, ply, d).move;
      && m in Generated(p) && CanMake(p, m) && Searchable(Make(p, m), d - 1)
      && Walk(p, ply, d) == ([m] + Walk(Make(p, m), ply + 1, d - 1).0,
                             RootChoice(p, ply, d).nodes + Walk(Make(p, m), ply + 1, d - 1).1)
  {
    RootMove(p, ply, d);
    SearchableChild(p, d, RootChoice(p, ply, d).move);
    assert WalkAfter(p, ply, d, 1) == WalkAfter(p, ply, d, 0);
  }

  /** What `search_root(b, depth)` returns for the position `p` of `b`,
      `ply` plies from the game's start. */
  ghost function RootSearch(p: Position, ply: int, depth: nat): SearchResult
    requires 0 < depth && Searchable(p, depth)
  {
    var c := RootChoice(p, ply, depth);
    if IsNull(c.move) then SearchResult(c.move, c.score, c.nodes, [])
    else
      RootMove(p, ply, depth);
      SearchableChild(p, depth, c.move);
      var w := Walk(Make(p, c.move), ply + 1, depth - 1);
      SearchResult(c.move, c.score, c.nodes + w.1, [c.move] + w.0)
  }

  /** The walk plays at most `d` moves, all legal. */
  lemma {:induction false} WalkLegal(p: Position, ply: int, d: nat)
    requires Searchable(p, d)
    ensures |Walk(p, ply, d).0| <= d && LegalLine(p, Walk(p, ply, d).0)
    decreases d
  {
    if d == 0 {
      WalkZero(p, ply);
    } else if IsNull(RootChoice(p, ply, d).move) {
      WalkStops(p, ply, d);
    } else {
      var m := RootChoice(p, ply, d).move;
      WalkGoesOn(p, ply, d);
      WalkLegal(Make(p, m), ply + 1, d - 1);
      var w := Walk(Make(p, m), ply + 1, d - 1);
      assert ([m] + w.0)[1..] == w.0;
    }
  }

  /** A generated move is never the null move: it leaves its square. */
  lemma GeneratedNotNull(p: Position, m: Move)
    requires Sound(p) && Generable(p) && m in Generated(p)
    ensures !IsNull(m)
  {
    GeneratedFine(p, m);
  }

  /** The principal variation is a legal line of at most `depth` moves
      that starts with the chosen move; it is empty exactly when there is
      no legal move, and then the result is the null move scoring `-INF`.
      Otherwise the chosen move is the first one in search order with the
      exact negamax value, which is the score reported. */
  lemma RootSearchSound(p: Position, ply: int, depth: nat)
    requires 0 < depth && Searchable(p, depth) && 0 <= ply && ply + depth <= MATE
    ensures var r := RootSearch(p, ply, depth);
      && |r.pv| <= depth && LegalLine(p, r.pv)
      && (r.pv == [] <==> Generated(p) == [])
      && (r.pv != [] ==> r.pv[0] == r.best && r.best in Ordered(p) && r.score == Value(p, ply, depth))
      && (Generated(p) == [] ==> r.best == NullMove && r.score == -INF && r.nodes == 0)
  {
    if Generated(p) == [] {
      RootNoMoves(p, ply, depth);
    } else {
      RootSearchMoves(p, ply, depth - 1);
    }
  }

  lemma RootSearchMoves(p: Position, ply: int, d: nat)
    requires Searchable(p, d + 1) && 0 <= ply && ply + d + 1 <= MATE && Generated(p) != []
    ensures var r := RootSearch(p, ply, d + 1);
      && |r.pv| <= d + 1 && LegalLine(p, r.pv) && r.pv != []
      && r.pv[0] == r.best && r.best in Ordered(p) && r.score == Value(p, ply, d + 1)
  {
    var c := RootChoice(p, ply, d + 1);
    var k := RootBest(p, ply, d);
    GeneratedNotNull(p, c.move);
    SearchableChild(p, d + 1, c.move);
    assert d + 1 - 1 == d;
    WalkLegal(Make(p, c.move), ply + 1, d);
    var w := Walk(Make(p, c.move), ply + 1, d);
    assert RootSearch(p, ply, d + 1) == SearchResult(c.move, c.score, c.nodes + w.1, [c.move] + w.0);
    assert ([c.move] + w.0)[1..] == w.0;
  }
}
