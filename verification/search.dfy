/**
 * The search of src/search.cpp on the board: `negamax`, `chooseBestMove`
 * and `search_root`.  Each method makes and unmakes moves on the one
 * board, leaves it as it found it, and is proved to return what module
 * Minimax specifies, so the properties proved there (fail-soft bounds,
 * the exact value at the root, the first best move, a legal principal
 * variation) hold of the code.
 */
module Search {
  import opened Types
  import opened Positions
  import opened Generation
  import opened Evaluation
  import opened Ordering
  import opened Boards
  import opened MoveGen
  import opened Minimax

  /** `negamax(b, depth, alpha, beta, nodeCount)`: the fail-soft score of
      the board's position and the node counter after the search. */
  method Negamax(b: Board, depth: nat, alpha: int, beta: int, nodeCount: nat, ghost p: Position)
    returns (score: int, nodes: nat)
    requires b.Valid() && b.Pos() == p && Searchable(p, depth) && b.ply + depth <= HIST_SIZE
    modifies b
    ensures score == AlphaBeta(p, old(b.ply), depth, alpha, beta).score
    ensures nodes == nodeCount + AlphaBeta(p, old(b.ply), depth, alpha, beta).nodes
    ensures b.Valid() && b.Pos() == p && b.ply == old(b.ply)
    ensures forall k :: 0 <= k < b.ply ==> b.hist[k] == old(b.hist[k])
    decreases depth, 3
  {
    if depth == 0 {
      nodes := nodeCount + 1;
      score := Eval(b);
      return;
    }
    var d := depth - 1;
    assert d + 1 == depth;
    var legal := GenerateMoves(b);
    if |legal| == 0 {
      nodes := nodeCount + 1;
      OccupancyIs(b.pcs, b.occ, b.occAll);
      var check := b.InCheck(b.stm);
      if check {
        score := -MATE + b.ply;
      } else {
        score := 0;
      }
      return;
    }
    legal := SortMoves(b.Pos(), legal);
    OrderedIs(p);
    score, nodes := SearchMoves(b, d, alpha, beta, nodeCount, p, legal);
  }

  /** The loop of `negamax` over the ordered moves `mv`, with its beta
      cutoff. */
  method SearchMoves(b: Board, d: nat, alpha: int, beta: int, nodeCount: nat, ghost p: Position, mv: seq<Move>)
    returns (score: int, nodes: nat)
    requires b.Valid() && b.Pos() == p && Searchable(p, d + 1) && b.ply + d < HIST_SIZE
    requires mv == Ordered(p)
    modifies b
    ensures score == Scan(p, old(b.ply), d + 1, 0, alpha, beta, -INF, 0).score
    ensures nodes == nodeCount + Scan(p, old(b.ply), d + 1, 0, alpha, beta, -INF, 0).nodes
    ensures b.Valid() && b.Pos() == p && b.ply == old(b.ply)
    ensures forall k :: 0 <= k < b.ply ==> b.hist[k] == old(b.hist[k])
    decreases d + 1, 2
  {
    ghost var h0, ply0 := b.hist, b.ply;
    ghost var goal := Scan(p, ply0, d + 1, 0, alpha, beta, -INF, 0);
    var bestScore := -INF;
    var a := alpha;
    nodes := nodeCount;
    var i := 0;
    while i < |mv|
      invariant 0 <= i <= |mv|
      invariant b.Valid() && b.Pos() == p && b.ply == ply0
      invariant forall k :: 0 <= k < ply0 ==> b.hist[k] == h0[k]
      invariant nodeCount <= nodes
      invariant Scan(p, ply0, d + 1, i, a, beta, bestScore, nodes - nodeCount) == goal
    {
      assert d + 1 - 1 == d;
      ghost var n0 := nodes - nodeCount;
      ghost var h1 := b.hist;
      var v;
      v, nodes := PlayAndSearch(b, mv[i], d, -beta, -a, nodes, p);
      FrameChain(h0, h1, b.hist, ply0);
      var s := -v;
      assert nodes - nodeCount == n0 + ChildSearch(p, ply0, d, mv[i], -beta, -a).nodes;
      if s > bestScore {
        bestScore := s;
      }
      if s > a {
        a := s;
      }
      if a >= beta {
        break;
      }
      i := i + 1;
    }
    score := bestScore;
  }

  /** The body of the loops: make the generated move `m`, search below it,
      unmake it. */
  method PlayAndSearch(b: Board, m: Move, d: nat, alpha: int, beta: int, nodeCount: nat, ghost p: Position)
    returns (score: int, nodes: nat)
    requires b.Valid() && b.Pos() == p && b.ply + d < HIST_SIZE
    requires Searchable(p, d + 1) && m in Generated(p)
    modifies b
    ensures score == ChildSearch(p, old(b.ply), d, m, alpha, beta).score
    ensures nodes == nodeCount + ChildSearch(p, old(b.ply), d, m, alpha, beta).nodes
    ensures b.Valid() && b.Pos() == p && b.ply == old(b.ply)
    ensures forall k :: 0 <= k < b.ply ==> b.hist[k] == old(b.hist[k])
    decreases d + 1, 1
  {
    GeneratedFine(p, m);
    RoundTripAsWritten(p, m);
    ghost var ply0 := b.ply;
    score, nodes := MakeAndSearch(b, m, d, alpha, beta, nodeCount, p);
    assert b.ply - 1 == ply0;
    b.UnmakeMove(m);
  }

  /** Make the generated move `m` and search the position it makes. */
  method MakeAndSearch(b: Board, m: Move, d: nat, alpha: int, beta: int, nodeCount: nat, ghost p: Position)
    returns (score: int, nodes: nat)
    requires b.Valid() && b.Pos() == p && b.ply + d < HIST_SIZE
    requires Searchable(p, d + 1) && m in Generated(p) && CanMake(p, m)
    modifies b
    ensures score == ChildSearch(p, old(b.ply), d, m, alpha, beta).score
    ensures nodes == nodeCount + ChildSearch(p, old(b.ply), d, m, alpha, beta).nodes
    ensures b.Valid() && b.Pos() == Make(p, m) && b.ply == old(b.ply) + 1
    ensures b.hist[old(b.ply)] == Saved(p, m)
    ensures forall k :: 0 <= k < old(b.ply) ==> b.hist[k] == old(b.hist[k])
    decreases d + 1, 0
  {
    ChildSearchIs(p, b.ply, d, m, alpha, beta);
    ghost var h0, ply0 := b.hist, b.ply;
    b.MakeMove(m);
    ghost var h1 := b.hist;
    score, nodes := Negamax(b, d, alpha, beta, nodeCount, Make(p, m));
    HistAfterMake(h0, h1, b.hist, ply0, b.ply, Saved(p, m));
  }

  /** The move-choosing loop of `chooseBestMove` and `search_root` over the
      ordered moves `mv`: full-width child searches, `alpha` raised to the
      best score so far, the first move with the best score kept. */
  method BestAmong(b: Board, d: nat, nodeCount: nat, ghost p: Position, mv: seq<Move>)
    returns (bestMove: Move, bestScore: int, nodes: nat)
    requires b.Valid() && b.Pos() == p && Searchable(p, d + 1) && b.ply + d < HIST_SIZE
    requires mv == Ordered(p)
    modifies b
    ensures bestMove == RootChoice(p, old(b.ply), d + 1).move
    ensures bestScore == RootChoice(p, old(b.ply), d + 1).score
    ensures nodes == nodeCount + RootChoice(p, old(b.ply), d + 1).nodes
    ensures b.Valid() && b.Pos() == p && b.ply == old(b.ply)
    ensures forall k :: 0 <= k < b.ply ==> b.hist[k] == old(b.hist[k])
  {
    ghost var h0, ply0 := b.hist, b.ply;
    RootChoiceIs(p, ply0, d + 1);
    ghost var goal := RootChoice(p, ply0, d + 1);
    var alpha := -INF;
    var beta := INF;
    bestScore := -INF;
    bestMove := NullMove;
    nodes := nodeCount;
    var i := 0;
    while i < |mv|
      invariant 0 <= i <= |mv|
      invariant b.Valid() && b.Pos() == p && b.ply == ply0
      invariant forall k :: 0 <= k < ply0 ==> b.hist[k] == h0[k]
      invariant nodeCount <= nodes && beta == INF
      invariant Pick(p, ply0, d + 1, i, alpha, bestScore, bestMove, nodes - nodeCount) == goal
    {
      assert d + 1 - 1 == d;
      ghost var n0 := nodes - nodeCount;
      ghost var h1 := b.hist;
      var childNodes;
      var v;
      v, childNodes := PlayAndSearch(b, mv[i], d, -beta, -alpha, 0, p);
      FrameChain(h0, h1, b.hist, ply0);
      var s := -v;
      nodes := nodes + childNodes;
      if s > bestScore {
        bestScore := s;
        bestMove := mv[i];
      }
      if s > alpha {
        alpha := s;
      }
      i := i + 1;
    }
  }

  /** `chooseBestMove(b, depth, nodeCount)`: the first best move of the
      board's position (the null move when there is none) and the node
      counter after the search. */
  method ChooseBestMove(b: Board, depth: nat, nodeCount: nat, ghost p: Position) returns (best: Move, nodes: nat)
    requires 0 < depth && b.Valid() && b.Pos() == p && Searchable(p, depth) && b.ply + depth <= HIST_SIZE
    modifies b
    ensures best == RootChoice(p, old(b.ply), depth).move
    ensures nodes == nodeCount + RootChoice(p, old(b.ply), depth).nodes
    ensures b.Valid() && b.Pos() == p && b.ply == old(b.ply)
    ensures forall k :: 0 <= k < b.ply ==> b.hist[k] == old(b.hist[k])
  {
    var legal := GenerateMoves(b);
    if |legal| == 0 {
      RootNoMoves(p, b.ply, depth);
      return NullMove, nodeCount;
    }
    legal := SortMoves(b.Pos(), legal);
    OrderedIs(p);
    var d := depth - 1;
    assert d + 1 == depth;
    var score;
    best, score, nodes := BestAmong(b, d, nodeCount, p, legal);
  }

  /** `search_root(b, depth)`: the best move, its score, the nodes counted
      and the principal variation, walked on a copy of the board. */
  method SearchRoot(b: Board, depth: nat, ghost p: Position) returns (out: SearchResult)
    requires 0 < depth && b.Valid() && b.Pos() == p && Searchable(p, depth) && b.ply + depth <= HIST_SIZE
    modifies b
    ensures out == RootSearch(p, old(b.ply), depth)
    ensures b.Valid() && b.Pos() == p && b.ply == old(b.ply)
    ensures forall k :: 0 <= k < b.ply ==> b.hist[k] == old(b.hist[k])
  {
    ghost var ply0 := b.ply;
    var legal := GenerateMoves(b);
    legal := SortMoves(b.Pos(), legal);
    OrderedIs(p);
    var d := depth - 1;
    assert d + 1 == depth;
    var bestMove, bestScore, nodes := BestAmong(b, d, 0, p, legal);
    var pv := [];
    if bestMove.from != 0 || bestMove.to != 0 {
      RootMove(p, ply0, depth);
      pv := [bestMove];
      var line, extraNodes := FollowLine(b, bestMove, d, p);
      pv := pv + line;
      nodes := nodes + extraNodes;
    }
    out := SearchResult(bestMove, bestScore, nodes, pv);
  }

  /** The principal variation after the root move `m`: `search_root` plays
      it on a copy of the board and walks on from there, leaving the board
      itself alone. */
  method FollowLine(b: Board, m: Move, d: nat, ghost p: Position) returns (line: seq<Move>, nodes: nat)
    requires b.Valid() && b.Pos() == p && Searchable(p, d + 1) && m in Generated(p) && b.ply + d < HIST_SIZE
    ensures CanMake(p, m) && Searchable(Make(p, m), d)
    ensures (line, nodes) == Walk(Make(p, m), b.ply + 1, d)
  {
    SearchableChild(p, d + 1, m);
    assert d + 1 - 1 == d;
    var walk := new Board.Copy(b);
    walk.MakeMove(m);
    line, nodes := WalkLine(walk, d, Make(p, m));
  }

  /** The walk of `search_root` on its copy of the board: with `d` plies
      left, play the move `chooseBestMove` picks until `d` reaches 0 or it
      finds none; the moves played and the nodes the calls counted. */
  method WalkLine(walk: Board, d: nat, ghost p: Position) returns (line: seq<Move>, nodes: nat)
    requires walk.Valid() && walk.Pos() == p && Searchable(p, d) && walk.ply + d <= HIST_SIZE
    modifies walk
    ensures (line, nodes) == Walk(p, old(walk.ply), d)
    ensures walk.Valid()
  {
    ghost var goal := Walk(p, walk.ply, d);
    ghost var q := p;
    line, nodes := [], 0;
    var left := d;
    while left > 0
      invariant walk.Valid() && walk.Pos() == q && walk.ply + left <= HIST_SIZE
      invariant Searchable(q, left)
      invariant line + Walk(q, walk.ply, left).0 == goal.0
      invariant nodes + Walk(q, walk.ply, left).1 == goal.1
    {
      ghost var ply := walk.ply;
      var next, extraNodes := WalkStep(walk, left, q);
      nodes := nodes + extraNodes;
      if !(next.from != 0 || next.to != 0) {
        assert line + [] == line;
        break;
      }
      ghost var w := Walk(walk.Pos(), walk.ply, left - 1);
      assert line + [next] + w.0 == line + ([next] + w.0);
      line := line + [next];
      q := walk.Pos();
      left := left - 1;
    }
    if left == 0 {
      WalkZero(q, walk.ply);
      assert line + [] == line;
    }
  }

  /** One step of the walk: `chooseBestMove` from the board's position
      with `left` plies, then the chosen move played unless it is the null
      move. */
  method WalkStep(walk: Board, left: nat, ghost q: Position) returns (next: Move, nodes: nat)
    requires 0 < left && walk.Valid() && walk.Pos() == q && Searchable(q, left) && walk.ply + left <= HIST_SIZE
    modifies walk
    ensures walk.Valid()
    ensures IsNull(next) ==> Walk(q, old(walk.ply), left) == ([], nodes)
    ensures !IsNull(next) ==>
      && CanMake(q, next) && walk.Pos() == Make(q, next) && walk.ply == old(walk.ply) + 1 && Searchable(walk.Pos(), left - 1)
      && Walk(q, old(walk.ply), left) == ([next] + Walk(walk.Pos(), walk.ply, left - 1).0,
                                          nodes + Walk(walk.Pos(), walk.ply, left - 1).1)
  {
    ghost var ply := walk.ply;
    next, nodes := ChooseBestMove(walk, left, 0, q);
    if IsNull(next) {
      WalkStops(q, ply, left);
    } else {
      WalkGoesOn(q, ply, left);
      walk.MakeMove(next);
    }
  }
}
