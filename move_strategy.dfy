/** The two exhaustive depth-first move strategies. Both are specified by one
    recursive function, `Search`, that backs evaluations up the game tree:
    a terminal child is scored by the evaluator, a non-terminal child by the
    value its own search backs up, and each level keeps the first move whose
    value is strictly the best (greatest when maximizing, least otherwise).
    The Max strategy maximizes at every level; Minimax alternates, starting
    with maximizing at the root. The loop-based methods that mirror the
    source are proved to compute exactly `Search`. */
module MoveStrategy {
  import opened PositionEvaluator
  import opened Game

  /** How the maximizing flag evolves from a level to the next one. */
  datatype Policy = AlwaysMax | Alternating

  function NextLevel(policy: Policy, maximizing: bool): bool {
    match policy
    case AlwaysMax => maximizing
    case Alternating => !maximizing
  }

  /** `a` is a strict improvement on `b` at a level with this flag. */
  predicate Better(a: PositionEvaluation, b: PositionEvaluation, maximizing: bool) {
    if maximizing then IsGreater(a, b) else IsLess(a, b)
  }

  /** The two-armed test of the Minimax loop is the strict improvement of
      its level. */
  lemma SourceTestIsBetter(v: PositionEvaluation, best: PositionEvaluation, maximizing: bool)
    ensures (maximizing && IsGreater(v, best)) || (!maximizing && IsLess(v, best)) <==> Better(v, best, maximizing)
  {
  }

  /** The initial "best" evaluation of a level: `Losing` when maximizing,
      `Winning` when minimizing. */
  function Sentinel(maximizing: bool): PositionEvaluation {
    if maximizing then Losing else Winning
  }

  /** The sentinel is the worst value of its level: nothing fails to
      improve on it except the sentinel itself. */
  lemma SentinelIsWorst(v: PositionEvaluation, maximizing: bool)
    ensures !Better(v, Sentinel(maximizing), maximizing) <==> v == Sentinel(maximizing)
  {
    if maximizing { LosingIsBottom(v); } else { WinningIsTop(v); }
  }

  /** The index of the first best value of `vals`, built left to right as
      the strategies' loops scan the moves: a later value takes over only
      when it is strictly better. */
  function ArgBest(vals: seq<PositionEvaluation>, maximizing: bool): (k: nat)
    requires |vals| > 0
    ensures k < |vals|
    decreases |vals|
  {
    if |vals| == 1 then 0
    else
      var k := ArgBest(vals[..|vals| - 1], maximizing);
      if Better(vals[|vals| - 1], vals[k], maximizing) then |vals| - 1 else k
  }

  /** `ArgBest` picks the first best value: nothing is strictly better than
      it, and it is strictly better than everything before it. */
  lemma {:induction false} ArgBestIsFirstBest(vals: seq<PositionEvaluation>, maximizing: bool)
    requires |vals| > 0
    ensures var k := ArgBest(vals, maximizing);
      && (forall j :: 0 <= j < |vals| ==> !Better(vals[j], vals[k], maximizing))
      && (forall j :: 0 <= j < k ==> Better(vals[k], vals[j], maximizing))
    decreases |vals|
  {
    if |vals| > 1 {
      var init := vals[..|vals| - 1];
      ArgBestIsFirstBest(init, maximizing);
      var k := ArgBest(init, maximizing);
      var last := vals[|vals| - 1];
      if Better(last, vals[k], maximizing) {
        forall j | 0 <= j < |vals| - 1 ensures Better(last, vals[j], maximizing) {
          assert vals[j] == init[j];
          CompareTotal(vals[j], vals[k]);
          CompareAntisymmetric(vals[j], vals[k]);
          CompareTransitive(vals[j], vals[k], last);
          CompareTransitive(last, vals[k], vals[j]);
        }
      } else {
        forall j | 0 <= j < |vals| ensures !Better(vals[j], vals[k], maximizing) {
          if j < |vals| - 1 { assert vals[j] == init[j]; }
        }
      }
    }
  }

  /** Scanning one more value moves the best index only on a strict
      improvement. */
  lemma ArgBestStep(vals: seq<PositionEvaluation>, v: PositionEvaluation, maximizing: bool)
    requires |vals| > 0
    ensures ArgBest(vals + [v], maximizing)
      == if Better(v, vals[ArgBest(vals, maximizing)], maximizing) then |vals| else ArgBest(vals, maximizing)
  {
    assert (vals + [v])[..|vals|] == vals;
  }

  /** One iteration of a strategy's loop: `best` is the running best
      evaluation of the values scanned so far (the sentinel before the first
      one), and it is replaced by `v` only on a strict improvement. */
  lemma BestStep(vals: seq<PositionEvaluation>, v: PositionEvaluation, best: PositionEvaluation, maximizing: bool)
    requires |vals| == 0 ==> best == Sentinel(maximizing)
    requires |vals| > 0 ==> best == vals[ArgBest(vals, maximizing)]
    ensures var k := ArgBest(vals + [v], maximizing);
      && k == (if Better(v, best, maximizing) || |vals| == 0 then |vals| else ArgBest(vals, maximizing))
      && (vals + [v])[k] == (if Better(v, best, maximizing) then v else best)
  {
    if |vals| == 0 {
      SentinelIsWorst(v, maximizing);
    } else {
      ArgBestStep(vals, v, maximizing);
    }
  }

  /** The running best move and evaluation of a strategy's loop after it
      has scanned the values `vals` of the first `|vals|` moves: the sentinel
      and the first move before any value, then the move and value at the
      first best index. */
  ghost predicate Scanned<M>(moves: seq<M>, vals: seq<PositionEvaluation>, bestMove: M, best: PositionEvaluation, maximizing: bool) {
    && 0 < |moves|
    && |vals| <= |moves|
    && (if |vals| == 0 then bestMove == moves[0] && best == Sentinel(maximizing)
        else bestMove == moves[ArgBest(vals, maximizing)] && best == vals[ArgBest(vals, maximizing)])
  }

  /** One iteration of a strategy's loop on the running best move and
      evaluation: replacing them exactly when the new value is strictly
      better keeps them the move and value at the first best index. */
  lemma ScanStep<M>(moves: seq<M>, vals: seq<PositionEvaluation>, v: PositionEvaluation, best: PositionEvaluation, bestMove: M,
                    newBest: PositionEvaluation, newMove: M, maximizing: bool)
    requires |vals| < |moves| && Scanned(moves, vals, bestMove, best, maximizing)
    requires Better(v, best, maximizing) ==> newBest == v && newMove == moves[|vals|]
    requires !Better(v, best, maximizing) ==> newBest == best && newMove == bestMove
    ensures Scanned(moves, vals + [v], newMove, newBest, maximizing)
  {
    BestStep(vals, v, best, maximizing);
  }

  /** What `choose_move_recursive` returns: `None` at a terminal position
      (`Terminal`), `Some((move, evaluation))` (`Best`), or the panic of
      `moves[0]` on an empty move list (`NoLegalMoves`), which aborts every
      search above it. */
  datatype SearchResult<M> = Terminal | Best(move: M, eval: PositionEvaluation) | NoLegalMoves

  /** The backed-up search of `p` at a level with flag `maximizing`. */
  function Search<P(!new), M(!new)>(r: Rules<P, M>, ev: P -> PositionEvaluation, policy: Policy, p: P, maximizing: bool): SearchResult<M>
    requires Finite(r)
    decreases r.height(p), 1, 0
  {
    if r.isTerminal(p) then Terminal
    else
      var moves := r.getMoves(p);
      if |moves| == 0 then NoLegalMoves
      else
        match ChildEvaluations(r, ev, policy, p, |moves|, NextLevel(policy, maximizing))
        case None => NoLegalMoves
        case Some(vals) =>
          var k := ArgBest(vals, maximizing);
          Best(moves[k], vals[k])
  }

  /** The evaluation the parent uses for a child: the evaluator's score
      when the child is terminal, the child's backed-up value otherwise;
      `None` when the child's search panics. */
  function ChildEvaluation<P(!new), M(!new)>(r: Rules<P, M>, ev: P -> PositionEvaluation, policy: Policy, child: P, maximizing: bool): Option<PositionEvaluation>
    requires Finite(r)
    decreases r.height(child), 2, 0
  {
    match Search(r, ev, policy, child, maximizing)
    case Terminal => Some(ev(child))
    case Best(_, e) => Some(e)
    case NoLegalMoves => None
  }

  /** The evaluations of the children reached by the first `n` moves of
      `p`, or `None` when one of their searches panics. */
  function ChildEvaluations<P(!new), M(!new)>(r: Rules<P, M>, ev: P -> PositionEvaluation, policy: Policy, p: P, n: nat, maximizing: bool): (res: Option<seq<PositionEvaluation>>)
    requires Finite(r) && !r.isTerminal(p) && n <= |r.getMoves(p)|
    ensures res.Some? ==> |res.value| == n
    decreases r.height(p), 0, n
  {
    if n == 0 then Some([])
    else
      match ChildEvaluations(r, ev, policy, p, n - 1, maximizing)
      case None => None
      case Some(vals) =>
        var m := r.getMoves(p)[n - 1];
        assert m in r.getMoves(p);
        match ChildEvaluation(r, ev, policy, r.apply(p, m), maximizing)
        case None => None
        case Some(v) => Some(vals + [v])
  }

  /** Once a child's search panics, the whole scan panics. */
  lemma {:induction false} ChildEvaluationsAbort<P(!new), M(!new)>(r: Rules<P, M>, ev: P -> PositionEvaluation, policy: Policy, p: P, i: nat, n: nat, maximizing: bool)
    requires Finite(r) && !r.isTerminal(p) && i <= n <= |r.getMoves(p)|
    requires ChildEvaluations(r, ev, policy, p, i, maximizing) == None
    ensures ChildEvaluations(r, ev, policy, p, n, maximizing) == None
    decreases n
  {
    if n > i {
      ChildEvaluationsAbort(r, ev, policy, p, i, n - 1, maximizing);
    }
  }

  /** The scan grows by one child evaluation at a time. */
  lemma ChildEvaluationsStep<P(!new), M(!new)>(r: Rules<P, M>, ev: P -> PositionEvaluation, policy: Policy, p: P, i: nat, maximizing: bool, vals: seq<PositionEvaluation>, v: PositionEvaluation)
    requires Finite(r) && !r.isTerminal(p) && i < |r.getMoves(p)|
    requires ChildEvaluations(r, ev, policy, p, i, maximizing) == Some(vals)
    requires ChildEvaluation(r, ev, policy, r.apply(p, r.getMoves(p)[i]), maximizing) == Some(v)
    ensures ChildEvaluations(r, ev, policy, p, i + 1, maximizing) == Some(vals + [v])
  {
  }

  /** The scan is the list of the children's evaluations, in move order. */
  lemma {:induction false} ChildEvaluationsAt<P(!new), M(!new)>(r: Rules<P, M>, ev: P -> PositionEvaluation, policy: Policy, p: P, n: nat, maximizing: bool)
    requires Finite(r) && !r.isTerminal(p) && n <= |r.getMoves(p)|
    requires ChildEvaluations(r, ev, policy, p, n, maximizing).Some?
    ensures var vals := ChildEvaluations(r, ev, policy, p, n, maximizing).value;
      forall j :: 0 <= j < n ==> ChildEvaluation(r, ev, policy, r.apply(p, r.getMoves(p)[j]), maximizing) == Some(vals[j])
    decreases n
  {
    if n > 0 {
      ChildEvaluationsAt(r, ev, policy, p, n - 1, maximizing);
    }
  }

  /** A complete scan without a panic determines the search's result. */
  lemma SearchOfScan<P(!new), M(!new)>(r: Rules<P, M>, ev: P -> PositionEvaluation, policy: Policy, p: P, maximizing: bool, vals: seq<PositionEvaluation>)
    requires Finite(r) && !r.isTerminal(p) && |r.getMoves(p)| > 0
    requires ChildEvaluations(r, ev, policy, p, |r.getMoves(p)|, NextLevel(policy, maximizing)) == Some(vals)
    ensures var k := ArgBest(vals, maximizing);
      Search(r, ev, policy, p, maximizing) == Best(r.getMoves(p)[k], vals[k])
  {
  }

  /** The search reports `Terminal` exactly at terminal positions. */
  lemma SearchTerminalIff<P(!new), M(!new)>(r: Rules<P, M>, ev: P -> PositionEvaluation, policy: Policy, p: P, maximizing: bool)
    requires Finite(r)
    ensures Search(r, ev, policy, p, maximizing) == Terminal <==> r.isTerminal(p)
  {
  }

  /** A generator that returns no move at a non-terminal position makes the
      search fail instead of fabricating a move. */
  lemma EmptyMovesAbort<P(!new), M(!new)>(r: Rules<P, M>, ev: P -> PositionEvaluation, policy: Policy, p: P, maximizing: bool)
    requires Finite(r) && !r.isTerminal(p) && r.getMoves(p) == []
    ensures Search(r, ev, policy, p, maximizing) == NoLegalMoves
  {
  }

  /** A successful search returns the first legal move whose child value
      is the best of all children, together with that value: no child is
      strictly better, every earlier child is strictly worse. */
  lemma SearchBestIsFirstOptimal<P(!new), M(!new)>(r: Rules<P, M>, ev: P -> PositionEvaluation, policy: Policy, p: P, maximizing: bool)
    requires Finite(r) && Search(r, ev, policy, p, maximizing).Best?
    ensures var res := Search(r, ev, policy, p, maximizing);
      var moves := r.getMoves(p);
      var next := NextLevel(policy, maximizing);
      && !r.isTerminal(p)
      && (forall j :: 0 <= j < |moves| ==> ChildEvaluation(r, ev, policy, r.apply(p, moves[j]), next).Some?)
      && (exists k :: 0 <= k < |moves| && res.move == moves[k]
           && ChildEvaluation(r, ev, policy, r.apply(p, moves[k]), next) == Some(res.eval)
           && (forall j :: 0 <= j < |moves| ==>
                 !Better(ChildEvaluation(r, ev, policy, r.apply(p, moves[j]), next).value, res.eval, maximizing))
           && (forall j :: 0 <= j < k ==>
                 Better(res.eval, ChildEvaluation(r, ev, policy, r.apply(p, moves[j]), next).value, maximizing)))
  {
    var moves := r.getMoves(p);
    var next := NextLevel(policy, maximizing);
    assert !r.isTerminal(p) && |moves| > 0 && ChildEvaluations(r, ev, policy, p, |moves|, next).Some?;
    var vals := ChildEvaluations(r, ev, policy, p, |moves|, next).value;
    SearchOfScan(r, ev, policy, p, maximizing, vals);
    ChildEvaluationsAt(r, ev, policy, p, |moves|, next);
    ArgBestIsFirstBest(vals, maximizing);
    var k := ArgBest(vals, maximizing);
    var res := Search(r, ev, policy, p, maximizing);
    assert ChildEvaluation(r, ev, policy, r.apply(p, moves[k]), next) == Some(res.eval);
    forall j | 0 <= j < |moves|
      ensures !Better(ChildEvaluation(r, ev, policy, r.apply(p, moves[j]), next).value, res.eval, maximizing)
    {
      assert ChildEvaluation(r, ev, policy, r.apply(p, moves[j]), next).value == vals[j];
    }
    forall j | 0 <= j < k
      ensures Better(res.eval, ChildEvaluation(r, ev, policy, r.apply(p, moves[j]), next).value, maximizing)
    {
      assert ChildEvaluation(r, ev, policy, r.apply(p, moves[j]), next).value == vals[j];
    }
  }

  /** The move a successful search returns is one of the generator's moves. */
  lemma SearchMoveIsLegal<P(!new), M(!new)>(r: Rules<P, M>, ev: P -> PositionEvaluation, policy: Policy, p: P, maximizing: bool)
    requires Finite(r) && Search(r, ev, policy, p, maximizing).Best?
    ensures !r.isTerminal(p) && Search(r, ev, policy, p, maximizing).move in r.getMoves(p)
  {
    var moves := r.getMoves(p);
    var vals := ChildEvaluations(r, ev, policy, p, |moves|, NextLevel(policy, maximizing)).value;
    assert moves[ArgBest(vals, maximizing)] in moves;
  }

  /** When a maximizing level has a move that ends the game in a position
      the evaluator scores `Winning`, the search backs up `Winning`. */
  lemma ImmediateWinIsFound<P(!new), M(!new)>(r: Rules<P, M>, ev: P -> PositionEvaluation, policy: Policy, p: P, m: M)
    requires Finite(r) && !r.isTerminal(p) && m in r.getMoves(p)
    requires r.isTerminal(r.apply(p, m)) && ev(r.apply(p, m)) == Winning
    requires Search(r, ev, policy, p, true).Best?
    ensures Search(r, ev, policy, p, true).eval == Winning
  {
    SearchBestIsFirstOptimal(r, ev, policy, p, true);
    var moves := r.getMoves(p);
    var j :| 0 <= j < |moves| && moves[j] == m;
    var e := Search(r, ev, policy, p, true).eval;
    assert ChildEvaluation(r, ev, policy, r.apply(p, moves[j]), NextLevel(policy, true)) == Some(Winning);
    WinningIsTop(e);
  }

  /** When every child is worth `Winning`, the scan is all `Winning`. */
  lemma {:induction false} ChildEvaluationsAllWinning<P(!new), M(!new)>(r: Rules<P, M>, ev: P -> PositionEvaluation, policy: Policy, p: P, n: nat, maximizing: bool)
    requires Finite(r) && !r.isTerminal(p) && n <= |r.getMoves(p)|
    requires forall j :: 0 <= j < n ==> ChildEvaluation(r, ev, policy, r.apply(p, r.getMoves(p)[j]), maximizing) == Some(Winning)
    ensures ChildEvaluations(r, ev, policy, p, n, maximizing) == Some(seq(n, _ => Winning))
    decreases n
  {
    if n == 0 {
      var none: seq<PositionEvaluation> := [];
      assert seq(n, _ => Winning) == none;
    } else {
      ChildEvaluationsAllWinning(r, ev, policy, p, n - 1, maximizing);
      var before: seq<PositionEvaluation> := seq(n - 1, _ => Winning);
      ChildEvaluationsStep(r, ev, policy, p, n - 1, maximizing, before, Winning);
      assert before + [Winning] == seq(n, _ => Winning);
    }
  }

  /** A level whose every child is worth `Winning` backs up `Winning`,
      whichever way it chooses. */
  lemma AllChildrenWinning<P(!new), M(!new)>(r: Rules<P, M>, ev: P -> PositionEvaluation, policy: Policy, p: P, maximizing: bool)
    requires Finite(r) && !r.isTerminal(p) && |r.getMoves(p)| > 0
    requires forall j :: 0 <= j < |r.getMoves(p)| ==>
      ChildEvaluation(r, ev, policy, r.apply(p, r.getMoves(p)[j]), NextLevel(policy, maximizing)) == Some(Winning)
    ensures Search(r, ev, policy, p, maximizing).Best? && Search(r, ev, policy, p, maximizing).eval == Winning
  {
    ChildEvaluationsAllWinning(r, ev, policy, p, |r.getMoves(p)|, NextLevel(policy, maximizing));
  }

  /** The same for a level with exactly two moves, stated on the level's
      own value as its parent sees it. */
  lemma TwoChildrenWinning<P(!new), M(!new)>(r: Rules<P, M>, ev: P -> PositionEvaluation, policy: Policy, p: P, maximizing: bool, a: M, b: M)
    requires Finite(r) && !r.isTerminal(p) && r.getMoves(p) == [a, b]
    requires ChildEvaluation(r, ev, policy, r.apply(p, a), NextLevel(policy, maximizing)) == Some(Winning)
    requires ChildEvaluation(r, ev, policy, r.apply(p, b), NextLevel(policy, maximizing)) == Some(Winning)
    ensures ChildEvaluation(r, ev, policy, p, maximizing) == Some(Winning)
  {
    AllChildrenWinning(r, ev, policy, p, maximizing);
  }

  /** At a maximizing level, a first move worth `Winning` is the one
      returned: nothing is strictly better than `Winning`, so no later move
      replaces it. */
  lemma FirstWinningMoveIsChosen<P(!new), M(!new)>(r: Rules<P, M>, ev: P -> PositionEvaluation, policy: Policy, p: P)
    requires Finite(r) && !r.isTerminal(p) && |r.getMoves(p)| > 0
    requires Consistent(r)
    requires ChildEvaluation(r, ev, policy, r.apply(p, r.getMoves(p)[0]), NextLevel(policy, true)) == Some(Winning)
    ensures Search(r, ev, policy, p, true) == Best(r.getMoves(p)[0], Winning)
  {
    SearchNeverAborts(r, ev, policy, p, true);
    var moves := r.getMoves(p);
    var vals := ChildEvaluations(r, ev, policy, p, |moves|, NextLevel(policy, true)).value;
    ChildEvaluationsAt(r, ev, policy, p, |moves|, NextLevel(policy, true));
    ArgBestIsFirstBest(vals, true);
    var k := ArgBest(vals, true);
    WinningIsTop(vals[k]);
    assert k == 0;
  }

  /** With a consistent rule pack, no search ever panics. */
  lemma {:induction false} SearchNeverAborts<P(!new), M(!new)>(r: Rules<P, M>, ev: P -> PositionEvaluation, policy: Policy, p: P, maximizing: bool)
    requires Finite(r) && Consistent(r)
    ensures Search(r, ev, policy, p, maximizing) != NoLegalMoves
    ensures !r.isTerminal(p) ==> Search(r, ev, policy, p, maximizing).Best?
    decreases r.height(p), 1, 0
  {
    if !r.isTerminal(p) {
      var moves := r.getMoves(p);
      ChildEvaluationsNeverAbort(r, ev, policy, p, |moves|, NextLevel(policy, maximizing));
    }
  }

  lemma {:induction false} ChildEvaluationsNeverAbort<P(!new), M(!new)>(r: Rules<P, M>, ev: P -> PositionEvaluation, policy: Policy, p: P, n: nat, maximizing: bool)
    requires Finite(r) && Consistent(r) && !r.isTerminal(p) && n <= |r.getMoves(p)|
    ensures ChildEvaluations(r, ev, policy, p, n, maximizing).Some?
    decreases r.height(p), 0, n
  {
    if n > 0 {
      ChildEvaluationsNeverAbort(r, ev, policy, p, n - 1, maximizing);
      var m := r.getMoves(p)[n - 1];
      assert m in r.getMoves(p);
      SearchNeverAborts(r, ev, policy, r.apply(p, m), maximizing);
    }
  }

  /** `MaxMoveStrategy::choose_move_recursive`. */
  method MaxChooseMoveRecursive<P(!new), M(!new)>(r: Rules<P, M>, ev: P -> PositionEvaluation, game: P) returns (res: SearchResult<M>)
    requires Finite(r)
    ensures res == Search(r, ev, AlwaysMax, game, true)
    decreases r.height(game)
  {
    if r.isTerminal(game) {
      return Terminal;
    }
    var moves := r.getMoves(game);
    if |moves| == 0 {
      return NoLegalMoves;
    }
    var bestMove := moves[0];
    var bestEvaluation := Losing;
    ghost var vals: seq<PositionEvaluation> := [];
    for i := 0 to |moves|
      invariant ChildEvaluations(r, ev, AlwaysMax, game, i, true) == Some(vals)
      invariant Scanned(moves, vals, bestMove, bestEvaluation, true)
    {
      var m := moves[i];
      assert m in r.getMoves(game);
      var newPosition := r.apply(game, m);
      var recursive := MaxChooseMoveRecursive(r, ev, newPosition);
      var newEvaluation;
      match recursive {
        case Terminal =>
          newEvaluation := ev(newPosition);
        case Best(_, e) =>
          newEvaluation := e;
        case NoLegalMoves =>
          ChildEvaluationsAbort(r, ev, AlwaysMax, game, i + 1, |moves|, true);
          return NoLegalMoves;
      }
      ChildEvaluationsStep(r, ev, AlwaysMax, game, i, true, vals, newEvaluation);
      if IsGreater(newEvaluation, bestEvaluation) {
        ScanStep(moves, vals, newEvaluation, bestEvaluation, bestMove, newEvaluation, m, true);
        bestEvaluation := newEvaluation;
        bestMove := m;
      } else {
        ScanStep(moves, vals, newEvaluation, bestEvaluation, bestMove, bestEvaluation, bestMove, true);
      }
      vals := vals + [newEvaluation];
    }
    SearchOfScan(r, ev, AlwaysMax, game, true, vals);
    return Best(bestMove, bestEvaluation);
  }

  /** `MinimaxMoveStrategy::choose_move_recursive`. */
  method MinimaxChooseMoveRecursive<P(!new), M(!new)>(r: Rules<P, M>, ev: P -> PositionEvaluation, game: P, maximizingPlayer: bool) returns (res: SearchResult<M>)
    requires Finite(r)
    ensures res == Search(r, ev, Alternating, game, maximizingPlayer)
    decreases r.height(game)
  {
    if r.isTerminal(game) {
      return Terminal;
    }
    var moves := r.getMoves(game);
    if |moves| == 0 {
      return NoLegalMoves;
    }
    var bestMove := moves[0];
    var bestEvaluation := if maximizingPlayer then Losing else Winning;
    ghost var vals: seq<PositionEvaluation> := [];
    for i := 0 to |moves|
      invariant ChildEvaluations(r, ev, Alternating, game, i, !maximizingPlayer) == Some(vals)
      invariant Scanned(moves, vals, bestMove, bestEvaluation, maximizingPlayer)
    {
      var m := moves[i];
      assert m in r.getMoves(game);
      var newPosition := r.apply(game, m);
      var recursive := MinimaxChooseMoveRecursive(r, ev, newPosition, !maximizingPlayer);
      var newEvaluation;
      match recursive {
        case Terminal =>
          newEvaluation := ev(newPosition);
        case Best(_, e) =>
          newEvaluation := e;
        case NoLegalMoves =>
          ChildEvaluationsAbort(r, ev, Alternating, game, i + 1, |moves|, !maximizingPlayer);
          return NoLegalMoves;
      }
      ChildEvaluationsStep(r, ev, Alternating, game, i, !maximizingPlayer, vals, newEvaluation);
      SourceTestIsBetter(newEvaluation, bestEvaluation, maximizingPlayer);
      if maximizingPlayer && IsGreater(newEvaluation, bestEvaluation) {
        ScanStep(moves, vals, newEvaluation, bestEvaluation, bestMove, newEvaluation, m, maximizingPlayer);
        bestEvaluation := newEvaluation;
        bestMove := m;
      } else if !maximizingPlayer && IsLess(newEvaluation, bestEvaluation) {
        ScanStep(moves, vals, newEvaluation, bestEvaluation, bestMove, newEvaluation, m, maximizingPlayer);
        bestEvaluation := newEvaluation;
        bestMove := m;
      } else {
        ScanStep(moves, vals, newEvaluation, bestEvaluation, bestMove, bestEvaluation, bestMove, maximizingPlayer);
      }
      vals := vals + [newEvaluation];
    }
    SearchOfScan(r, ev, Alternating, game, maximizingPlayer, vals);
    return Best(bestMove, bestEvaluation);
  }

  /** The two panics of a strategy: indexing `moves[0]` of an empty move
      list, and `choose_move` finding no move to make. */
  datatype Fault = IndexOutOfBounds | NoMove

  /** What `choose_move` delivers: a move, or the panic that aborts it. */
  datatype Choice<M> = Chosen(move: M) | Panic(fault: Fault)

  /** `choose_move`'s match on the recursive result. */
  function ChoiceOf<M>(res: SearchResult<M>): Choice<M> {
    match res
    case Best(m, _) => Chosen(m)
    case Terminal => Panic(NoMove)
    case NoLegalMoves => Panic(IndexOutOfBounds)
  }

  /** `MaxMoveStrategy::choose_move`. */
  method MaxChooseMove<P(!new), M(!new)>(r: Rules<P, M>, ev: P -> PositionEvaluation, game: P) returns (choice: Choice<M>)
    requires Finite(r)
    ensures choice == ChoiceOf(Search(r, ev, AlwaysMax, game, true))
    ensures choice.Chosen? ==> choice.move in r.getMoves(game)
    ensures choice == Panic(NoMove) <==> r.isTerminal(game)
    ensures Consistent(r) && !r.isTerminal(game) ==> choice.Chosen?
  {
    var res := MaxChooseMoveRecursive(r, ev, game);
    match res {
      case Best(m, _) =>
        SearchMoveIsLegal(r, ev, AlwaysMax, game, true);
        choice := Chosen(m);
      case Terminal =>
        choice := Panic(NoMove);
      case NoLegalMoves =>
        choice := Panic(IndexOutOfBounds);
    }
    if Consistent(r) {
      SearchNeverAborts(r, ev, AlwaysMax, game, true);
    }
  }

  /** `MinimaxMoveStrategy::choose_move`: the root always maximizes. */
  method MinimaxChooseMove<P(!new), M(!new)>(r: Rules<P, M>, ev: P -> PositionEvaluation, game: P) returns (choice: Choice<M>)
    requires Finite(r)
    ensures choice == ChoiceOf(Search(r, ev, Alternating, game, true))
    ensures choice.Chosen? ==> choice.move in r.getMoves(game)
    ensures choice == Panic(NoMove) <==> r.isTerminal(game)
    ensures Consistent(r) && !r.isTerminal(game) ==> choice.Chosen?
  {
    var res := MinimaxChooseMoveRecursive(r, ev, game, true);
    match res {
      case Best(m, _) =>
        SearchMoveIsLegal(r, ev, Alternating, game, true);
        choice := Chosen(m);
      case Terminal =>
        choice := Panic(NoMove);
      case NoLegalMoves =>
        choice := Panic(IndexOutOfBounds);
    }
    if Consistent(r) {
      SearchNeverAborts(r, ev, Alternating, game, true);
    }
  }

  /** A strategy with its position evaluator. Its move generator and oracle
      are those of the rule pack it is used with. */
  datatype Strategy<!P> =
    | MaxMoveStrategy(evaluator: P -> PositionEvaluation)
    | MinimaxMoveStrategy(evaluator: P -> PositionEvaluation)

  /** The move a strategy chooses, as a function. */
  function StrategyChoice<P(!new), M(!new)>(r: Rules<P, M>, s: Strategy<P>, game: P): Choice<M>
    requires Finite(r)
  {
    match s
    case MaxMoveStrategy(ev) => ChoiceOf(Search(r, ev, AlwaysMax, game, true))
    case MinimaxMoveStrategy(ev) => ChoiceOf(Search(r, ev, Alternating, game, true))
  }

  /** `MoveStrategy::choose_move`, dispatched on the strategy; a player's
      `pick_move` delegates to it. */
  method ChooseMove<P(!new), M(!new)>(r: Rules<P, M>, s: Strategy<P>, game: P) returns (choice: Choice<M>)
    requires Finite(r)
    ensures choice == StrategyChoice(r, s, game)
    ensures choice.Chosen? ==> choice.move in r.getMoves(game)
    ensures choice == Panic(NoMove) <==> r.isTerminal(game)
    ensures Consistent(r) && !r.isTerminal(game) ==> choice.Chosen?
  {
    match s {
      case MaxMoveStrategy(ev) =>
        choice := MaxChooseMove(r, ev, game);
      case MinimaxMoveStrategy(ev) =>
        choice := MinimaxChooseMove(r, ev, game);
    }
  }
}
