/** Undo and redo as both crochet editors keep them: the present state, a
    stack of earlier states to undo to, and a stack of undone states to redo.
    The editors differ only in how a new entry is pushed and in what a state
    holds, so the stacks are generic in the state `S`. */
module UndoHistory {

  datatype History<S> = History(now: S, undo: seq<S>, redo: seq<S>)

  /** The history after `undo`: the present goes onto the redo stack and the
      newest undo entry becomes the present; nothing changes when there is
      nothing to undo. */
  function Undone<S>(h: History<S>): (r: History<S>)
    ensures |r.undo| + |r.redo| == |h.undo| + |h.redo|
    ensures h.undo == [] ==> r == h
    ensures h.undo != [] ==>
      && r.now == h.undo[|h.undo| - 1] && r.undo == h.undo[..|h.undo| - 1]
      && |r.redo| > 0 && r.redo[|r.redo| - 1] == h.now && r.redo[..|r.redo| - 1] == h.redo
  {
    if h.undo == [] then h
    else History(h.undo[|h.undo| - 1], h.undo[..|h.undo| - 1], h.redo + [h.now])
  }

  /** The history after `redo`, the mirror image of `Undone`. */
  function Redone<S>(h: History<S>): (r: History<S>)
    ensures |r.undo| + |r.redo| == |h.undo| + |h.redo|
    ensures h.redo == [] ==> r == h
    ensures h.redo != [] ==>
      && r.now == h.redo[|h.redo| - 1] && r.redo == h.redo[..|h.redo| - 1]
      && |r.undo| > 0 && r.undo[|r.undo| - 1] == h.now && r.undo[..|r.undo| - 1] == h.undo
  {
    if h.redo == [] then h
    else History(h.redo[|h.redo| - 1], h.undo + [h.now], h.redo[..|h.redo| - 1])
  }

  /** Redo takes back an undo. */
  lemma RedoAfterUndo<S>(h: History<S>)
    requires h.undo != []
    ensures Redone(Undone(h)) == h
  {
    var n := |h.undo|;
    assert h.undo[..n - 1] + [h.undo[n - 1]] == h.undo;
  }

  /** Undo takes back a redo. */
  lemma UndoAfterRedo<S>(h: History<S>)
    requires h.redo != []
    ensures Undone(Redone(h)) == h
  {
    var n := |h.redo|;
    assert h.redo[..n - 1] + [h.redo[n - 1]] == h.redo;
  }
}
