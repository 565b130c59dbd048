/** The game engine: it owns the initial position, the two players and the
    rule pack, and plays the game out. Each ply asks the oracle whose turn
    it is, lets that player's strategy choose a move, applies it and
    appends it to the history. */
module Engine {
  import opened Game
  import opened MoveStrategy

  /** The position reached from `p` by applying `ms` in order. */
  function Replay<P, M>(r: Rules<P, M>, p: P, ms: seq<M>): P
    decreases |ms|
  {
    if ms == [] then p else r.apply(Replay(r, p, ms[..|ms| - 1]), ms[|ms| - 1])
  }

  /** Replaying a history in two pieces is replaying it at once. */
  lemma {:induction false} ReplayConcat<P, M>(r: Rules<P, M>, p: P, a: seq<M>, b: seq<M>)
    ensures Replay(r, p, a + b) == Replay(r, Replay(r, p, a), b)
    decreases |b|
  {
    if b == [] {
      assert a + b == a;
    } else {
      ReplayConcat(r, p, a, b[..|b| - 1]);
      assert (a + b)[..|a + b| - 1] == a + b[..|b| - 1];
    }
  }

  /** Every move of `ms` was legal where it was played: the position before
      it was not terminal and the generator offered it. */
  ghost predicate LegalHistory<P, M>(r: Rules<P, M>, p: P, ms: seq<M>) {
    forall i :: 0 <= i < |ms| ==>
      && !r.isTerminal(Replay(r, p, ms[..i]))
      && ms[i] in r.getMoves(Replay(r, p, ms[..i]))
  }

  /** A legal game of `|ms|` plies uses up at least `|ms|` of the height:
      no game lasts longer than the height of its initial position. */
  lemma {:induction false} LegalHistoryIsBounded<P(!new), M(!new)>(r: Rules<P, M>, p: P, ms: seq<M>)
    requires Finite(r) && LegalHistory(r, p, ms)
    ensures r.height(Replay(r, p, ms)) + |ms| <= r.height(p)
    decreases |ms|
  {
    if ms != [] {
      var init := ms[..|ms| - 1];
      assert LegalHistory(r, p, init) by {
        forall i | 0 <= i < |init| ensures init[..i] == ms[..i] && init[i] == ms[i] { }
      }
      LegalHistoryIsBounded(r, p, init);
      assert ms[..|ms| - 1] == init;
    }
  }

  /** The player the oracle's answer dispatches to: index 0 plays first
      (`player_x`), index 1 second (`player_o`), anything else nobody. */
  function PlayerFor<P>(next: Option<nat>, playerX: Strategy<P>, playerO: Strategy<P>): Option<Strategy<P>> {
    match next
    case Some(0) => Some(playerX)
    case Some(1) => Some(playerO)
    case _ => None
  }

  /** `m` is the move that the player whose turn it is at `q` picks there. */
  ghost predicate PickedByPlayerToMove<P(!new), M(!new)>(r: Rules<P, M>, playerX: Strategy<P>, playerO: Strategy<P>, q: P, m: M)
    requires Finite(r)
  {
    && !r.isTerminal(q)
    && match PlayerFor(r.nextPlayer(q), playerX, playerO)
       case Some(s) => StrategyChoice(r, s, q) == Chosen(m)
       case None => false
  }

  /** A recorded move was picked at a position where the oracle named
      player 0 or player 1. */
  lemma PickedMeansPlayerNamed<P(!new), M(!new)>(r: Rules<P, M>, playerX: Strategy<P>, playerO: Strategy<P>, q: P, m: M)
    requires Finite(r) && PickedByPlayerToMove(r, playerX, playerO, q, m)
    ensures r.nextPlayer(q) == Some(0) || r.nextPlayer(q) == Some(1)
  {
  }

  /** How `run` ends: at a terminal position, at a non-terminal one whose
      next player is indeterminate, or by a strategy's panic. */
  datatype RunOutcome = Finished | Stopped | Panicked(fault: Fault)

  class GameEngine<P(!new), M(!new)> {
    const initialGameState: P
    var moves: seq<M>
    var currentGameState: P
    const playerX: Strategy<P>
    const playerO: Strategy<P>
    /** The oracle, with the move generator and `apply` of the game. */
    const rules: Rules<P, M>

    /** The current position is the initial one with the history applied
        in order, and the history is a legal play. */
    ghost predicate Valid()
      reads this
    {
      && currentGameState == Replay(rules, initialGameState, moves)
      && LegalHistory(rules, initialGameState, moves)
    }

    /** `GameEngine::new`. */
    constructor (initialGameState: P, player1: Strategy<P>, player2: Strategy<P>, rules: Rules<P, M>)
      ensures Valid()
      ensures this.initialGameState == initialGameState && currentGameState == initialGameState && moves == []
      ensures playerX == player1 && playerO == player2 && this.rules == rules
    {
      this.initialGameState := initialGameState;
      this.moves := [];
      this.currentGameState := initialGameState;
      this.playerX := player1;
      this.playerO := player2;
      this.rules := rules;
    }

    /** `GameEngine::run`. */
    method Run() returns (outcome: RunOutcome)
      requires Valid() && Finite(rules)
      modifies this
      ensures Valid()
      ensures old(moves) <= moves
      ensures currentGameState == Replay(rules, old(currentGameState), moves[|old(moves)|..])
      ensures forall i :: |old(moves)| <= i < |moves| ==>
        PickedByPlayerToMove(rules, playerX, playerO, Replay(rules, initialGameState, moves[..i]), moves[i])
      ensures outcome == Finished <==> rules.isTerminal(currentGameState)
      ensures outcome == Stopped ==> PlayerFor(rules.nextPlayer(currentGameState), playerX, playerO) == None
      ensures outcome.Panicked? ==> outcome.fault == IndexOutOfBounds && !Consistent(rules)
    {
      while !rules.isTerminal(currentGameState)
        invariant Valid()
        invariant old(moves) <= moves
        invariant currentGameState == Replay(rules, old(currentGameState), moves[|old(moves)|..])
        invariant forall i :: |old(moves)| <= i < |moves| ==>
          PickedByPlayerToMove(rules, playerX, playerO, Replay(rules, initialGameState, moves[..i]), moves[i])
        decreases rules.height(currentGameState)
      {
        match PlayerFor(rules.nextPlayer(currentGameState), playerX, playerO) {
          case None =>
            return Stopped;
          case Some(nextPlayer) =>
            var choice := ChooseMove(rules, nextPlayer, currentGameState);
            if choice.Panic? {
              return Panicked(choice.fault);
            }
            var nextMove := choice.move;
            LegalStep(rules, initialGameState, moves, nextMove);
            SuffixStep(rules, old(currentGameState), moves, |old(moves)|, nextMove);
            PickedStep(rules, playerX, playerO, initialGameState, moves, |old(moves)|, nextMove);
            currentGameState := rules.apply(currentGameState, nextMove);
            moves := moves + [nextMove];
        }
      }
      return Finished;
    }
  }

  /** A legal ply extends a legal history, and the position it reaches is
      the replay of the extended history. */
  lemma LegalStep<P, M>(r: Rules<P, M>, p: P, ms: seq<M>, m: M)
    requires LegalHistory(r, p, ms)
    requires !r.isTerminal(Replay(r, p, ms)) && m in r.getMoves(Replay(r, p, ms))
    ensures Replay(r, p, ms + [m]) == r.apply(Replay(r, p, ms), m)
    ensures LegalHistory(r, p, ms + [m])
  {
    var ms' := ms + [m];
    assert ms'[..|ms|] == ms;
    forall i | 0 <= i < |ms'|
      ensures !r.isTerminal(Replay(r, p, ms'[..i])) && ms'[i] in r.getMoves(Replay(r, p, ms'[..i]))
    {
      assert ms'[..i] == ms[..i] || i == |ms|;
    }
  }

  /** The moves appended since position `start` still replay from it. */
  lemma SuffixStep<P, M>(r: Rules<P, M>, start: P, ms: seq<M>, k: nat, m: M)
    requires k <= |ms|
    ensures Replay(r, start, (ms + [m])[k..]) == r.apply(Replay(r, start, ms[k..]), m)
  {
    assert (ms + [m])[k..] == ms[k..] + [m];
    assert (ms[k..] + [m])[..|ms[k..]|] == ms[k..];
  }

  /** Recording a move the player to move picked keeps "every recorded move
      since `k` was picked by the player to move". */
  lemma PickedStep<P(!new), M(!new)>(r: Rules<P, M>, playerX: Strategy<P>, playerO: Strategy<P>, p: P, ms: seq<M>, k: nat, m: M)
    requires Finite(r) && k <= |ms|
    requires forall i :: k <= i < |ms| ==> PickedByPlayerToMove(r, playerX, playerO, Replay(r, p, ms[..i]), ms[i])
    requires PickedByPlayerToMove(r, playerX, playerO, Replay(r, p, ms), m)
    ensures forall i :: k <= i < |ms + [m]| ==>
      PickedByPlayerToMove(r, playerX, playerO, Replay(r, p, (ms + [m])[..i]), (ms + [m])[i])
  {
    var ms' := ms + [m];
    forall i | k <= i < |ms'|
      ensures PickedByPlayerToMove(r, playerX, playerO, Replay(r, p, ms'[..i]), ms'[i])
    {
      if i < |ms| {
        assert ms'[..i] == ms[..i];
      } else {
        assert ms'[..i] == ms;
      }
    }
  }
}
