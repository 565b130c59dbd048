/** A game of tic-tac-toe played out by the engine: the engine is built on
    the tic-tac-toe rule pack and run once. The rule pack discharges the
    engine's assumptions, so the run cannot panic, and it stops early only
    when the oracle cannot name a player at the very start. */
module TicTacToeMatch {
  import opened Game
  import opened MoveStrategy
  import opened Engine
  import opened TicTacToe

  /** After at least one tic-tac-toe move, or from a position whose last
      player is 0 or 1, the oracle names a player. */
  lemma {:induction false} ReplayKeepsPlayerKnown(p: TicTacToePosition, ms: seq<TicTacToeMove>)
    requires p.lastPlayer < 2 || ms != []
    ensures Replay(TicTacToeRules(), p, ms).lastPlayer < 2
    ensures NextPlayer(Replay(TicTacToeRules(), p, ms)).Some?
  {
    if ms != [] {
      assert TicTacToeRules().apply == Apply;
      assert Replay(TicTacToeRules(), p, ms) == Apply(Replay(TicTacToeRules(), p, ms[..|ms| - 1]), ms[|ms| - 1]);
    }
  }

  /** The oracle names player 0 or 1 exactly when the last player is 0
      or 1, and then the engine has a player to dispatch to. */
  lemma NamedIffKnown(p: TicTacToePosition, playerX: Strategy<TicTacToePosition>, playerO: Strategy<TicTacToePosition>)
    ensures NextPlayer(p) == Some(0) || NextPlayer(p) == Some(1) <==> p.lastPlayer < 2
    ensures PlayerFor(NextPlayer(p), playerX, playerO).Some? <==> p.lastPlayer < 2
  {
  }

  /** `GameEngine::new` followed by `run` on tic-tac-toe. */
  method PlayTicTacToe(initial: TicTacToePosition, playerX: Strategy<TicTacToePosition>, playerO: Strategy<TicTacToePosition>)
    returns (outcome: RunOutcome, history: seq<TicTacToeMove>, final: TicTacToePosition)
    ensures !outcome.Panicked?
    ensures outcome == Finished <==> IsTerminal(final)
    ensures outcome == Stopped <==> !IsTerminal(initial) && initial.lastPlayer >= 2
    ensures outcome == Stopped ==> history == [] && final == initial
    ensures final == Replay(TicTacToeRules(), initial, history)
    ensures LegalHistory(TicTacToeRules(), initial, history)
    ensures |history| <= Height(initial)
    ensures forall i :: 0 <= i < |history| ==>
      PickedByPlayerToMove(TicTacToeRules(), playerX, playerO, Replay(TicTacToeRules(), initial, history[..i]), history[i])
  {
    var rules := TicTacToeRules();
    assert rules == Rules(Apply, LegalMoves, IsTerminal, NextPlayer, Height);
    var engine := new GameEngine(initial, playerX, playerO, rules);
    outcome := engine.Run();
    history := engine.moves;
    final := engine.currentGameState;
    LegalHistoryIsBounded(rules, initial, history);
    if initial.lastPlayer < 2 || history != [] {
      ReplayKeepsPlayerKnown(initial, history);
    }
    NamedIffKnown(initial, playerX, playerO);
    NamedIffKnown(final, playerX, playerO);
    if history == [] {
      assert final == initial;
    } else {
      assert history[..0] == [];
      PickedMeansPlayerNamed(rules, playerX, playerO, initial, history[0]);
    }
  }
}
