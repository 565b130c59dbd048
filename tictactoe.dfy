/** The tic-tac-toe rule pack: a 9-cell board, whose cells are numbered row
    by row from 0 to 8, and the index of the player who moved last. It
    instantiates the generic `Rules` and discharges the strategies'
    assumptions: the game tree is finite and a non-terminal position always
    has a legal move. */
module TicTacToe {
  import opened Game
  import opened PositionEvaluator
  import MoveStrategy

  datatype Piece = X | O

  /** A cell number. Indexing the Rust board with anything else panics, and
      every move the generator makes has one. */
  type Index = i: nat | i < 9

  type Board = b: seq<Option<Piece>> | |b| == 9
    witness [None, None, None, None, None, None, None, None, None]

  datatype TicTacToePosition = TicTacToePosition(board: Board, lastPlayer: nat)

  datatype TicTacToeMove = TicTacToeMove(position: Index, piece: Piece)

  /** `TicTacToePosition::apply`: the move's piece is written into its cell
      of a copy of the position, and the last player flips. */
  function Apply(p: TicTacToePosition, m: TicTacToeMove): (q: TicTacToePosition)
    ensures q.board[m.position] == Some(m.piece)
    ensures forall i :: 0 <= i < 9 && i != m.position ==> q.board[i] == p.board[i]
    ensures p.lastPlayer == 0 ==> q.lastPlayer == 1
    ensures p.lastPlayer == 1 ==> q.lastPlayer == 0
    ensures q.lastPlayer < 2
  {
    TicTacToePosition(p.board[m.position := Some(m.piece)], (p.lastPlayer + 1) % 2)
  }

  /** `apply` step by step: copy the receiver, then assign the cell and the
      last player on the copy. */
  method ApplyMove(p: TicTacToePosition, m: TicTacToeMove) returns (newPosition: TicTacToePosition)
    ensures newPosition == Apply(p, m)
  {
    newPosition := p;
    newPosition := newPosition.(board := newPosition.board[m.position := Some(m.piece)]);
    newPosition := newPosition.(lastPlayer := (newPosition.lastPlayer + 1) % 2);
  }

  /** `TicTacToeOracle::next_player`. */
  function NextPlayer(p: TicTacToePosition): Option<nat> {
    match p.lastPlayer
    case 0 => Some(1)
    case 1 => Some(0)
    case _ => None
  }

  /** Three occupied cells holding the same piece. */
  predicate ThreeInARow(p: TicTacToePosition, x: Index, y: Index, z: Index) {
    p.board[x].Some? && p.board[y].Some? && p.board[z].Some?
    && p.board[x].value == p.board[y].value && p.board[y].value == p.board[z].value
  }

  /** Every cell is occupied. */
  predicate IsCatGame(p: TicTacToePosition) {
    forall i :: 0 <= i < 9 ==> p.board[i].Some?
  }

  /** `TicTacToeOracle::is_terminal`: one of the eight lines is complete, or
      the board is full. */
  predicate IsTerminal(p: TicTacToePosition) {
    || ThreeInARow(p, 0, 1, 2)
    || ThreeInARow(p, 3, 4, 5)
    || ThreeInARow(p, 6, 7, 8)
    || ThreeInARow(p, 0, 3, 6)
    || ThreeInARow(p, 1, 4, 7)
    || ThreeInARow(p, 2, 5, 8)
    || ThreeInARow(p, 0, 4, 8)
    || ThreeInARow(p, 2, 4, 6)
    || IsCatGame(p)
  }

  /** The piece the generator hands out: `O` after player 0 moved, `X`
      otherwise. */
  function PieceToPlay(p: TicTacToePosition): Piece {
    match p.lastPlayer
    case 0 => O
    case _ => X
  }

  /** The number of empty cells among the first `n`. */
  function EmptyCount(b: Board, n: nat): nat
    requires n <= 9
  {
    if n == 0 then 0 else EmptyCount(b, n - 1) + (if b[n - 1] == None then 1 else 0)
  }

  /** The moves the generator's loop has pushed after visiting the first
      `n` cells: exactly the empty ones among them, in ascending order, each
      with the piece to play. */
  function MovesBelow(p: TicTacToePosition, n: nat): (moves: seq<TicTacToeMove>)
    requires n <= 9
    ensures |moves| == EmptyCount(p.board, n)
    ensures forall k :: 0 <= k < |moves| ==>
      moves[k].position < n && p.board[moves[k].position] == None && moves[k].piece == PieceToPlay(p)
    ensures forall k, l :: 0 <= k < l < |moves| ==> moves[k].position < moves[l].position
    ensures forall i: Index :: i < n && p.board[i] == None ==> TicTacToeMove(i, PieceToPlay(p)) in moves
  {
    if n == 0 then []
    else
      var before := MovesBelow(p, n - 1);
      if p.board[n - 1] == None then before + [TicTacToeMove(n - 1, PieceToPlay(p))] else before
  }

  /** `TicTacToeMoveGenerator::get_moves`, as the function the rule pack
      hands to the strategies. */
  function LegalMoves(p: TicTacToePosition): seq<TicTacToeMove> {
    MovesBelow(p, 9)
  }

  /** `TicTacToeMoveGenerator::get_moves`: one pass over the cells, pushing
      a move for each empty one. */
  method GetMoves(game: TicTacToePosition) returns (moves: seq<TicTacToeMove>)
    ensures moves == LegalMoves(game)
  {
    var piece := match game.lastPlayer case 0 => O case _ => X;
    moves := [];
    for i := 0 to 9
      invariant moves == MovesBelow(game, i)
    {
      if game.board[i] == None {
        moves := moves + [TicTacToeMove(i, piece)];
      }
    }
  }

  /** The piece a player index stands for: player 0 is `X`, player 1 `O`. */
  function PlayerPiece(player: nat): Piece {
    if player == 0 then X else O
  }

  function Other(piece: Piece): Piece {
    match piece
    case X => O
    case O => X
  }

  /** `TicTacToePositionEvaluator::has_three_in_a_row`: `piece` fills one of
      the eight lines. */
  predicate HasThreeInARow(position: TicTacToePosition, piece: Piece) {
    || Line(position, piece, 0, 1, 2)
    || Line(position, piece, 3, 4, 5)
    || Line(position, piece, 6, 7, 8)
    || Line(position, piece, 0, 3, 6)
    || Line(position, piece, 1, 4, 7)
    || Line(position, piece, 2, 5, 8)
    || Line(position, piece, 0, 4, 8)
    || Line(position, piece, 2, 4, 6)
  }

  predicate Line(position: TicTacToePosition, piece: Piece, x: Index, y: Index, z: Index) {
    position.board[x] == Some(piece) && position.board[y] == Some(piece) && position.board[z] == Some(piece)
  }

  /** `TicTacToePositionEvaluator`, bound to the piece whose perspective it
      takes. */
  datatype TicTacToePositionEvaluator = TicTacToePositionEvaluator(playerPiece: Piece) {

    /** `evaluate`: the evaluator's own line is checked first. */
    function Evaluate(position: TicTacToePosition): (e: PositionEvaluation)
      ensures e == Winning <==> HasThreeInARow(position, playerPiece)
      ensures e == Losing <==> !HasThreeInARow(position, playerPiece) && HasThreeInARow(position, Other(playerPiece))
      ensures e != Winning && e != Losing ==> e == Estimate(0.0)
    {
      var otherPiece := match playerPiece case X => O case _ => X;
      if HasThreeInARow(position, playerPiece) then Winning
      else if HasThreeInARow(position, otherPiece) then Losing
      else Estimate(0.0)
    }
  }

  /** The number of plies left at most: the empty cells. */
  function Height(p: TicTacToePosition): nat {
    EmptyCount(p.board, 9)
  }

  /** The oracle's terminal test is "some piece has a line, or the board is
      full", with the same lines the evaluator checks. */
  lemma TerminalIffLineOrFull(p: TicTacToePosition)
    ensures IsTerminal(p) <==> HasThreeInARow(p, X) || HasThreeInARow(p, O) || IsCatGame(p)
  {
  }

  /** The generator's list is empty exactly when the board is full; so an
      empty list only ever comes from a terminal position. */
  lemma NoMovesIffFull(p: TicTacToePosition)
    ensures LegalMoves(p) == [] <==> IsCatGame(p)
    ensures LegalMoves(p) == [] ==> IsTerminal(p)
  {
    if LegalMoves(p) != [] {
      assert p.board[LegalMoves(p)[0].position] == None;
    }
    if !IsCatGame(p) {
      var i: Index :| p.board[i] == None;
      assert TicTacToeMove(i, PieceToPlay(p)) in LegalMoves(p);
    }
  }

  /** A won board with empty cells is terminal yet still has moves: the
      generator's list is not empty exactly at terminal positions. */
  lemma WonBoardStillHasMoves()
    ensures var p := TicTacToePosition([Some(X), Some(X), Some(X), None, None, None, None, None, None], 1);
      IsTerminal(p) && |LegalMoves(p)| == 6
  {
    var p := TicTacToePosition([Some(X), Some(X), Some(X), None, None, None, None, None, None], 1);
    assert EmptyCount(p.board, 9) == 6;
  }

  /** Filling an empty cell removes exactly one empty cell. */
  lemma {:induction false} EmptyCountAfterFill(b: Board, i: Index, piece: Piece, n: nat)
    requires n <= 9 && b[i] == None
    ensures EmptyCount(b[i := Some(piece)], n) == EmptyCount(b, n) - (if i < n then 1 else 0)
  {
    if n > 0 {
      EmptyCountAfterFill(b, i, piece, n - 1);
    }
  }

  /** Every legal move fills an empty cell, so it lowers the height. */
  lemma MoveLowersHeight(p: TicTacToePosition, m: TicTacToeMove)
    requires m in LegalMoves(p)
    ensures Height(Apply(p, m)) == Height(p) - 1
  {
    var moves := LegalMoves(p);
    var k :| 0 <= k < |moves| && moves[k] == m;
    EmptyCountAfterFill(p.board, m.position, m.piece, 9);
  }

  /** The rule pack handed to the strategies and the engine. Its game tree
      is finite, and a non-terminal position is never full, so it always
      has a legal move. */
  function TicTacToeRules(): (r: Rules<TicTacToePosition, TicTacToeMove>)
    ensures Finite(r) && Consistent(r)
  {
    var r := Rules(Apply, LegalMoves, IsTerminal, NextPlayer, Height);
    assert Finite(r) by {
      forall p: TicTacToePosition, m: TicTacToeMove | !r.isTerminal(p) && m in r.getMoves(p)
        ensures r.height(r.apply(p, m)) < r.height(p)
      {
        MoveLowersHeight(p, m);
      }
    }
    assert Consistent(r) by {
      forall p: TicTacToePosition | !r.isTerminal(p) ensures |r.getMoves(p)| > 0 {
        NoMovesIffFull(p);
      }
    }
    r
  }

  /** Turns alternate: after the player the oracle named has moved, the
      oracle names the other one; and after any move it names someone. */
  lemma TurnAlternation(p: TicTacToePosition, m: TicTacToeMove)
    ensures NextPlayer(Apply(p, m)).Some?
    ensures NextPlayer(p) == Some(0) ==> NextPlayer(Apply(p, m)) == Some(1)
    ensures NextPlayer(p) == Some(1) ==> NextPlayer(Apply(p, m)) == Some(0)
  {
  }

  /** The generator hands out the piece of the player the oracle names. */
  lemma GeneratorAgreesWithOracle(p: TicTacToePosition, player: nat)
    requires NextPlayer(p) == Some(player)
    ensures forall m :: m in LegalMoves(p) ==> m.piece == PlayerPiece(player)
  {
  }

  /** An evaluator only commits to `Winning` or `Losing` at a terminal
      position. */
  lemma DecidedOnlyWhenTerminal(e: TicTacToePositionEvaluator, p: TicTacToePosition)
    ensures e.Evaluate(p) != Estimate(0.0) ==> IsTerminal(p)
  {
  }

  /** Two evaluators of opposite pieces mirror each other whenever at most
      one piece has a line. */
  lemma EvaluatorsMirror(p: TicTacToePosition)
    requires !(HasThreeInARow(p, X) && HasThreeInARow(p, O))
    ensures TicTacToePositionEvaluator(X).Evaluate(p) == Winning <==> TicTacToePositionEvaluator(O).Evaluate(p) == Losing
    ensures TicTacToePositionEvaluator(X).Evaluate(p) == Losing <==> TicTacToePositionEvaluator(O).Evaluate(p) == Winning
    ensures TicTacToePositionEvaluator(X).Evaluate(p) == TicTacToePositionEvaluator(O).Evaluate(p)
      <==> TicTacToePositionEvaluator(X).Evaluate(p) == Estimate(0.0)
  {
  }

  /** Both strategies always find a move on a non-terminal tic-tac-toe
      position: the fatal path is unreachable. */
  lemma StrategiesNeverPanic(e: TicTacToePositionEvaluator, policy: MoveStrategy.Policy, p: TicTacToePosition, maximizing: bool)
    requires !IsTerminal(p)
    ensures MoveStrategy.Search(TicTacToeRules(), e.Evaluate, policy, p, maximizing).Best?
  {
    MoveStrategy.SearchNeverAborts(TicTacToeRules(), e.Evaluate, policy, p, maximizing);
  }

  /** When the side to move can complete a line of its own piece, both
      strategies, with that side's evaluator, back up `Winning`. */
  lemma WinningMoveIsSeen(policy: MoveStrategy.Policy, p: TicTacToePosition, m: TicTacToeMove)
    requires !IsTerminal(p) && m in LegalMoves(p)
    requires HasThreeInARow(Apply(p, m), m.piece)
    ensures var res := MoveStrategy.Search(TicTacToeRules(), TicTacToePositionEvaluator(m.piece).Evaluate, policy, p, true);
      res.Best? && res.eval == Winning
  {
    var e := TicTacToePositionEvaluator(m.piece);
    TerminalIffLineOrFull(Apply(p, m));
    StrategiesNeverPanic(e, policy, p, true);
    MoveStrategy.ImmediateWinIsFound(TicTacToeRules(), e.Evaluate, policy, p, m);
  }

  /** The same seen from the parent: a child where X, to move, can
      complete a line is worth `Winning` to X's evaluator at a maximizing
      level. */
  lemma WinningChild(policy: MoveStrategy.Policy, g: TicTacToePosition, w: TicTacToeMove)
    requires !IsTerminal(g) && w in LegalMoves(g) && w.piece == X
    requires HasThreeInARow(Apply(g, w), X)
    ensures MoveStrategy.ChildEvaluation(TicTacToeRules(), TicTacToePositionEvaluator(X).Evaluate, policy, g, true) == Some(Winning)
  {
    WinningMoveIsSeen(policy, g, w);
  }

  /** A position where X, to move, completes 2-5-8 by playing cell 8, and
      where cell 0, which comes first in generator order, also wins by
      force: it threatens both 0-1-2 and 2-5-8. */
  function ForkPosition(): TicTacToePosition {
    TicTacToePosition([None, None, Some(X), Some(O), Some(O), Some(X), Some(O), Some(X), None], 1)
  }

  /** The components of the tic-tac-toe rule pack. */
  lemma RulesComponents()
    ensures TicTacToeRules().apply == Apply && TicTacToeRules().getMoves == LegalMoves
    ensures TicTacToeRules().isTerminal == IsTerminal
  {
  }

  /** X has taken cell 0 of `ForkPosition`; O is to move. */
  function ForkTaken(): TicTacToePosition {
    TicTacToePosition([Some(X), None, Some(X), Some(O), Some(O), Some(X), Some(O), Some(X), None], 0)
  }

  /** O's reply at cell `cell` to `ForkTaken`: 1 or 8. */
  function ForkReply(cell: Index): TicTacToePosition
    requires cell == 1 || cell == 8
  {
    if cell == 1 then TicTacToePosition([Some(X), Some(O), Some(X), Some(O), Some(O), Some(X), Some(O), Some(X), None], 1)
    else TicTacToePosition([Some(X), None, Some(X), Some(O), Some(O), Some(X), Some(O), Some(X), Some(O)], 1)
  }

  /** X's winning answer to `ForkReply(cell)`: the cell O left open. */
  function ForkAnswer(cell: Index): TicTacToeMove {
    if cell == 1 then TicTacToeMove(8, X) else TicTacToeMove(1, X)
  }

  /** The moves at `ForkPosition`. */
  lemma ForkMoves()
    ensures LegalMoves(ForkPosition()) == [TicTacToeMove(0, X), TicTacToeMove(1, X), TicTacToeMove(8, X)]
  {
    var p := ForkPosition();
    assert EmptyCount(p.board, 9) == 3;
    assert MovesBelow(p, 2) == [TicTacToeMove(0, X), TicTacToeMove(1, X)];
  }

  /** No line is complete at `ForkPosition` and cells are still empty. */
  lemma ForkIsOpen()
    ensures !IsTerminal(ForkPosition())
  {
    assert ForkPosition().board[0] == None;
  }

  /** Taking cell 0 at `ForkPosition` leads to `ForkTaken`. */
  lemma ForkTake()
    ensures Apply(ForkPosition(), TicTacToeMove(0, X)) == ForkTaken()
  {
  }

  /** The moves at `ForkTaken`. */
  lemma ForkTakenMoves()
    ensures !IsTerminal(ForkTaken())
    ensures LegalMoves(ForkTaken()) == [TicTacToeMove(1, O), TicTacToeMove(8, O)]
  {
    assert EmptyCount(ForkTaken().board, 9) == 2;
  }

  /** O's two replies at `ForkTaken` lead to `ForkReply(1)` and `ForkReply(8)`. */
  lemma ForkReplies()
    ensures Apply(ForkTaken(), TicTacToeMove(1, O)) == ForkReply(1)
    ensures Apply(ForkTaken(), TicTacToeMove(8, O)) == ForkReply(8)
  {
  }

  /** After either reply, X has a move that completes a line. */
  lemma ForkReplyFacts(cell: Index)
    requires cell == 1 || cell == 8
    ensures !IsTerminal(ForkReply(cell))
    ensures ForkAnswer(cell) in LegalMoves(ForkReply(cell)) && ForkAnswer(cell).piece == X
    ensures HasThreeInARow(Apply(ForkReply(cell), ForkAnswer(cell)), X)
  {
    assert EmptyCount(ForkReply(cell).board, 9) == 1;
    assert LegalMoves(ForkReply(cell))[0] == ForkAnswer(cell);
  }

  /** Each of O's two replies leaves X an immediate win, at a maximizing
      level of either strategy. */
  lemma ForkRepliesLose(policy: MoveStrategy.Policy, cell: Index)
    requires cell == 1 || cell == 8
    ensures MoveStrategy.ChildEvaluation(TicTacToeRules(), TicTacToePositionEvaluator(X).Evaluate, policy, ForkReply(cell), true)
      == Some(Winning)
  {
    ForkReplyFacts(cell);
    WinningChild(policy, ForkReply(cell), ForkAnswer(cell));
  }

  /** Taking cell 0 is worth `Winning` to both strategies. */
  lemma ForkIsWinning(policy: MoveStrategy.Policy)
    ensures MoveStrategy.ChildEvaluation(TicTacToeRules(), TicTacToePositionEvaluator(X).Evaluate, policy,
      ForkTaken(), MoveStrategy.NextLevel(policy, true)) == Some(Winning)
  {
    ForkTakenMoves();
    ForkReplies();
    ForkRepliesLose(policy, 1);
    ForkRepliesLose(policy, 8);
    RulesComponents();
    var level := MoveStrategy.NextLevel(policy, true);
    assert MoveStrategy.NextLevel(policy, level) == true;
    MoveStrategy.TwoChildrenWinning(TicTacToeRules(), TicTacToePositionEvaluator(X).Evaluate, policy, ForkTaken(), level,
      TicTacToeMove(1, O), TicTacToeMove(8, O));
  }

  /** `ForkPosition` after X takes cell 8, completing the column 2-5-8. */
  function ForkWon(): TicTacToePosition {
    TicTacToePosition([None, None, Some(X), Some(O), Some(O), Some(X), Some(O), Some(X), Some(X)], 0)
  }

  /** Taking cell 8 at `ForkPosition` leads to `ForkWon`. */
  lemma ForkWin()
    ensures Apply(ForkPosition(), TicTacToeMove(8, X)) == ForkWon()
  {
  }

  /** `ForkWon` holds a line of X's, so the game is over. */
  lemma ForkWonIsOver()
    ensures HasThreeInARow(ForkWon(), X) && IsTerminal(ForkWon())
  {
    assert Line(ForkWon(), X, 2, 5, 8);
  }

  /** At `ForkPosition` X can complete a line at once. */
  lemma ForkHasImmediateWin()
    ensures TicTacToeMove(8, X) in LegalMoves(ForkPosition())
    ensures IsTerminal(Apply(ForkPosition(), TicTacToeMove(8, X)))
    ensures HasThreeInARow(Apply(ForkPosition(), TicTacToeMove(8, X)), X)
  {
    ForkMoves();
    ForkWin();
    ForkWonIsOver();
  }

  /** Both strategies return cell 0 at `ForkPosition`, worth `Winning`. */
  lemma ForkSearch(policy: MoveStrategy.Policy)
    ensures MoveStrategy.Search(TicTacToeRules(), TicTacToePositionEvaluator(X).Evaluate, policy, ForkPosition(), true)
      == MoveStrategy.Best(TicTacToeMove(0, X), Winning)
  {
    ForkIsOpen();
    ForkMoves();
    ForkTake();
    RulesComponents();
    ForkIsWinning(policy);
    MoveStrategy.FirstWinningMoveIsChosen(TicTacToeRules(), TicTacToePositionEvaluator(X).Evaluate, policy, ForkPosition());
  }

  /** The strategies do not prefer an immediate win: at `ForkPosition`,
      where taking cell 8 wins at once, both return the first move in
      generator order, cell 0, because it too is worth `Winning` (it
      forks two lines and O can block only one), and a later move must be
      strictly better to replace it. */
  lemma ImmediateWinNotPreferred(policy: MoveStrategy.Policy)
    ensures var p := ForkPosition();
      && TicTacToeMove(8, X) in LegalMoves(p)
      && IsTerminal(Apply(p, TicTacToeMove(8, X)))
      && HasThreeInARow(Apply(p, TicTacToeMove(8, X)), X)
      && MoveStrategy.Search(TicTacToeRules(), TicTacToePositionEvaluator(X).Evaluate, policy, p, true)
         == MoveStrategy.Best(TicTacToeMove(0, X), Winning)
  {
    ForkHasImmediateWin();
    ForkSearch(policy);
  }
}
