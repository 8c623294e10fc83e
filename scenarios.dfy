/**
 * Runs of the game that show behaviour of connecting-wires/app.js following
 * from two facts: `initGame` cancels neither the timers `checkWin` scheduled
 * nor a running drag.
 */
module Scenarios {
  import opened Wrappers
  import opened Catalog
  import opened Levels
  import opened Puzzle

  /**
   * Solving any level and pressing reset before the overlay appears does not
   * keep the player on level 1: the pending timers still show the overlay over
   * the fresh level 1 and then move the game to level 2.
   */
  method ResetDuringTransitionStillAdvances(g: Game, order: seq<int>, order1: seq<int>, order2: seq<int>)
    requires g.Valid() && g.isTransitioning && g.timers == [ShowOverlay]
    requires IsDeal(1, order, order1) && IsDeal(2, order, order2)
    modifies g
    ensures g.Valid() && g.currentLevel == 2 && g.timers == []
  {
    g.TriggerReset(order, order1);
    assert g.currentLevel == 1 && !g.isTransitioning && g.timers == [ShowOverlay];
    g.FireShowOverlay(0);
    assert g.overlayVisible && g.currentLevel == 1 && !g.isTransitioning;
    g.FireAdvance(0, order, order2);
  }

  /**
   * Pressing reset while the overlay is shown (the advance timer pending) does
   * not keep the player on level 1 either: the timer moves the game to level 2.
   */
  method ResetUnderOverlayStillAdvances(g: Game, order: seq<int>, order1: seq<int>, order2: seq<int>)
    requires g.Valid() && g.isTransitioning && g.timers == [Advance]
    requires IsDeal(1, order, order1) && IsDeal(2, order, order2)
    modifies g
    ensures g.Valid() && g.currentLevel == 2 && g.timers == []
  {
    g.TriggerReset(order, order1);
    assert g.currentLevel == 1 && !g.isTransitioning && g.timers == [Advance];
    g.FireAdvance(0, order, order2);
  }

  /**
   * After a reset before the overlay appears, a drag started on the fresh level 1 is still
   * running when the timers move the game to level 2. Released over the
   * level-2 right socket of its colour, it connects that socket while no left
   * socket of level 2 becomes connected: the ledger then counts a wire no left
   * socket accounts for.
   */
  method StaleDragConnectsOneSide(g: Game, order: seq<int>, order1: seq<int>, order2: seq<int>)
    requires g.Valid() && g.isTransitioning && g.timers == [ShowOverlay]
    requires IsDeal(1, order, order1) && IsDeal(2, order, order2)
    modifies g
    ensures g.Valid() && g.currentLevel == 2
    ensures |g.connections| == 1 && CountConnected(g.right) == 1 && CountConnected(g.left) == 0
  {
    g.TriggerReset(order, order1);
    g.DragStart(0);
    var w := g.left[0].wire;
    assert w == Permute(WireTypes, order)[0];
    g.FireShowOverlay(0);
    g.FireAdvance(0, order, order2);
    assert g.left[0].wire == w;
    UniquePartner(g, 0);
    var j :| 0 <= j < |g.right| && g.right[j].wire.color == w.color;
    g.DragEnd(Some(SocketRef(Right, j)));
    CountConnectedMark(Unconnected(RightWires(2, order, order2)), j);
  }
}
