/** The capabilities a rule pack supplies to the core: a position type `P`
    with `apply`, a move type `M`, a move generator and an oracle. They are
    bundled as function values, so any game instantiates them. */
module Game {

  datatype Option<T> = None | Some(value: T)

  /** A rule pack.
      - `apply`: the successor position (`Position::apply`);
      - `getMoves`: the ordered legal moves (`MoveGenerator::get_moves`);
      - `isTerminal`, `nextPlayer`: the oracle (`Oracle`);
      - `height`: a measure that bounds the remaining plies. The source only
        assumes that the game tree is finite; the measure makes that
        assumption explicit (see `Finite`). */
  datatype Rules<!P, !M> = Rules(
    apply: (P, M) -> P,
    getMoves: P -> seq<M>,
    isTerminal: P -> bool,
    nextPlayer: P -> Option<nat>,
    height: P -> nat)

  /** Every legal move out of a non-terminal position makes progress
      towards the end of the game: the game tree is finite. */
  ghost predicate Finite<P(!new), M(!new)>(r: Rules<P, M>) {
    forall p: P, m: M :: !r.isTerminal(p) && m in r.getMoves(p) ==> r.height(r.apply(p, m)) < r.height(p)
  }

  /** The generator and the oracle agree: a position the oracle calls
      non-terminal has at least one legal move. */
  ghost predicate Consistent<P(!new), M>(r: Rules<P, M>) {
    forall p: P :: !r.isTerminal(p) ==> |r.getMoves(p)| > 0
  }
}
