/**
 * The puzzle engine of connecting-wires/app.js as one game-state object.
 *
 * The source keeps this state in module-level variables and in
 * `dataset.connected` flags on the socket elements; here the variables are the
 * fields of `Game` and each column is a sequence of `Socket` records. Timer
 * callbacks (`setTimeout`) become explicit steps that fire a pending `Timer`;
 * the random shuffles of `initGame` are parameters.
 */
module Puzzle {
  import opened Wrappers
  import opened Catalog
  import opened Levels

  datatype Side = Left | Right

  /** A socket element: its wire type (`dataset.color` and symbol) and its
    * `dataset.connected` flag. */
  datatype Socket = Socket(wire: WireType, connected: bool)

  /** What the hit test found under the pointer: a socket of the current level. */
  datatype SocketRef = SocketRef(side: Side, index: nat)

  /**
   * `startSocket`: the left socket at `index` of the columns built by the
   * `generation`-th call of `initGame`. A drag can outlive its columns (a reset
   * or a level advance does not end it); the element it holds is then detached,
   * but its colour still takes part in the match.
   */
  datatype Origin = Origin(generation: nat, index: nat, wire: WireType)

  /** An entry of `connections`: the wire drawn from `origin` to the right socket `target`. */
  datatype Wire = Wire(origin: Origin, target: nat)

  /** A pending `setTimeout` callback of `checkWin`: show the overlay (300 ms), then advance (1500 ms). */
  datatype Timer = ShowOverlay | Advance

  /** A freshly created column: one unconnected socket per wire type, in order. */
  function Unconnected(ws: seq<WireType>): seq<Socket> {
    seq(|ws|, i requires 0 <= i < |ws| => Socket(ws[i], false))
  }

  /** The wire types of a column, in order. */
  function WireTypesOf(col: seq<Socket>): seq<WireType> {
    seq(|col|, i requires 0 <= i < |col| => col[i].wire)
  }

  /** Setting `dataset.connected` on socket `i`. */
  function Mark(col: seq<Socket>, i: nat): seq<Socket>
    requires i < |col|
  {
    col[i := col[i].(connected := true)]
  }

  /** The number of connected sockets in a column. */
  function CountConnected(col: seq<Socket>): nat {
    if col == [] then 0 else (if col[0].connected then 1 else 0) + CountConnected(col[1..])
  }

  /** The number of wires in `cs` drawn from a socket of generation `gen`. */
  function CountFrom(cs: seq<Wire>, gen: nat): nat {
    if cs == [] then 0
    else CountFrom(cs[..|cs| - 1], gen) + (if cs[|cs| - 1].origin.generation == gen then 1 else 0)
  }

  /**
   * The test of `handleDragEnd` (app.js:162-166): there is a target, it is a
   * right socket, it has the colour of the socket the drag started from, and it
   * is not connected yet.
   */
  predicate Commits(origin: Origin, target: Option<SocketRef>, right: seq<Socket>) {
    target.Some? && target.value.side == Right && target.value.index < |right| &&
    right[target.value.index].wire.color == origin.wire.color &&
    !right[target.value.index].connected
  }

  /** The score `initApp` loads: the stored value if there is one, else 1. */
  function LoadedScore(stored: Option<int>): int {
    match stored
    case Some(v) => v
    case None => 1
  }

  /** The `forEach(type => createSocket(...))` loops: build a column of fresh sockets. */
  method BuildColumn(ws: seq<WireType>) returns (col: seq<Socket>)
    ensures col == Unconnected(ws)
    ensures WireTypesOf(col) == ws
    ensures CountConnected(col) == 0
  {
    col := [];
    var i := 0;
    while i < |ws|
      invariant 0 <= i <= |ws|
      invariant |col| == i
      invariant forall k :: 0 <= k < i ==> col[k] == Socket(ws[k], false)
      invariant CountConnected(col) == 0
    {
      CountConnectedAppend(col, Socket(ws[i], false));
      col := col + [Socket(ws[i], false)];
      i := i + 1;
    }
    assert WireTypesOf(col) == ws;
  }

  /** Two columns a deal for `level` can give: `WireCount(level)` sockets a
    * side, colours distinct within each side, the same wire types on both. */
  predicate IsLayout(level: int, left: seq<Socket>, right: seq<Socket>) {
    |left| == WireCount(level) && |right| == |left| &&
    ColorsDistinct(WireTypesOf(left)) && ColorsDistinct(WireTypesOf(right)) &&
    multiset(WireTypesOf(right)) == multiset(WireTypesOf(left))
  }

  /** Lines 51-58 of `initGame`: the two columns of fresh sockets for `level`,
    * which form a layout for that level with nothing connected. */
  method BuildLevel(level: int, order: seq<int>, rightOrder: seq<int>)
    returns (left: seq<Socket>, right: seq<Socket>)
    requires IsDeal(level, order, rightOrder)
    ensures left == Unconnected(LevelWires(level, order)) && right == Unconnected(RightWires(level, order, rightOrder))
    ensures IsLayout(level, left, right)
    ensures CountConnected(left) == 0 && CountConnected(right) == 0
  {
    left := BuildColumn(LevelWires(level, order));
    right := BuildColumn(RightWires(level, order, rightOrder));
    DealLayout(level, order, rightOrder);
  }

  /** `o`, if it is a socket of the columns built by generation `gen`, is that
    * column's socket at its index and is still unconnected. */
  predicate OriginFree(o: Origin, left: seq<Socket>, gen: nat) {
    o.generation == gen ==> o.index < |left| && left[o.index].wire == o.wire && !left[o.index].connected
  }

  /** A committed wire: it ends on a connected right socket of its own colour
    * and, if it starts in the current columns, on a connected left socket. */
  predicate WireJoins(w: Wire, left: seq<Socket>, right: seq<Socket>, gen: nat) {
    w.origin.generation <= gen &&
    w.target < |right| && right[w.target].connected &&
    right[w.target].wire.color == w.origin.wire.color &&
    (w.origin.generation == gen ==>
      w.origin.index < |left| && left[w.origin.index].connected &&
      left[w.origin.index].wire == w.origin.wire)
  }

  /**
   * `connections` has one entry per connected right socket, and one per
   * connected left socket among the wires drawn from the current columns.
   */
  predicate Ledger(left: seq<Socket>, right: seq<Socket>, cs: seq<Wire>, gen: nat) {
    |cs| == CountConnected(right) &&
    CountConnected(left) == CountFrom(cs, gen) &&
    forall k :: 0 <= k < |cs| ==> WireJoins(cs[k], left, right, gen)
  }

  /** The columns as `handleDragEnd` leaves them after a commit from `o` to `t`. */
  function CommitLeft(left: seq<Socket>, o: Origin, gen: nat): seq<Socket> {
    if o.generation == gen && o.index < |left| then Mark(left, o.index) else left
  }

  /** A commit keeps the ledger consistent and adds one connected right socket. */
  lemma CommitKeepsLedger(left: seq<Socket>, right: seq<Socket>, cs: seq<Wire>, gen: nat, o: Origin, t: nat)
    requires Ledger(left, right, cs, gen)
    requires o.generation <= gen && OriginFree(o, left, gen)
    requires Commits(o, Some(SocketRef(Right, t)), right)
    ensures Ledger(CommitLeft(left, o, gen), Mark(right, t), cs + [Wire(o, t)], gen)
    ensures WireTypesOf(CommitLeft(left, o, gen)) == WireTypesOf(left)
    ensures WireTypesOf(Mark(right, t)) == WireTypesOf(right)
  {
    var left', right', cs' := CommitLeft(left, o, gen), Mark(right, t), cs + [Wire(o, t)];
    CountConnectedMark(right, t);
    if o.generation == gen {
      CountConnectedMark(left, o.index);
    }
    assert cs'[..|cs'| - 1] == cs;
    forall k | 0 <= k < |cs'| ensures WireJoins(cs'[k], left', right', gen) {
      if k < |cs| {
        assert cs'[k] == cs[k] && WireJoins(cs[k], left, right, gen);
      }
    }
  }

  /** Appending one socket adds one to the count exactly when it is connected. */
  lemma {:induction false} CountConnectedAppend(col: seq<Socket>, s: Socket)
    ensures CountConnected(col + [s]) == CountConnected(col) + (if s.connected then 1 else 0)
  {
    if col != [] {
      assert (col + [s])[1..] == col[1..] + [s];
      CountConnectedAppend(col[1..], s);
    }
  }

  /** At most every socket is connected, and all are exactly when the count is the column's length. */
  lemma {:induction false} CountConnectedBounds(col: seq<Socket>)
    ensures CountConnected(col) <= |col|
    ensures CountConnected(col) == |col| <==> forall i :: 0 <= i < |col| ==> col[i].connected
  {
    if col != [] {
      CountConnectedBounds(col[1..]);
      if forall i :: 0 <= i < |col| ==> col[i].connected {
        assert forall i :: 0 <= i < |col[1..]| ==> col[1..][i].connected by {
          forall i | 0 <= i < |col[1..]| ensures col[1..][i].connected {
            assert col[1..][i] == col[i + 1];
          }
        }
      } else {
        var i :| 0 <= i < |col| && !col[i].connected;
        if i > 0 {
          assert !col[1..][i - 1].connected;
        }
      }
    }
  }

  /** Connecting an unconnected socket raises the count by exactly one. */
  lemma {:induction false} CountConnectedMark(col: seq<Socket>, i: nat)
    requires i < |col| && !col[i].connected
    ensures CountConnected(Mark(col, i)) == CountConnected(col) + 1
    ensures WireTypesOf(Mark(col, i)) == WireTypesOf(col)
  {
    var m := Mark(col, i);
    if i > 0 {
      assert m[1..] == Mark(col[1..], i - 1);
      CountConnectedMark(col[1..], i - 1);
    } else {
      assert m[1..] == col[1..];
    }
    assert WireTypesOf(m) == WireTypesOf(col);
  }

  /** No more wires come from one generation than there are wires. */
  lemma {:induction false} CountFromBound(cs: seq<Wire>, gen: nat)
    ensures CountFrom(cs, gen) <= |cs|
    ensures CountFrom(cs, gen) == |cs| <==> forall k :: 0 <= k < |cs| ==> cs[k].origin.generation == gen
  {
    if cs != [] {
      var init := cs[..|cs| - 1];
      CountFromBound(init, gen);
      if forall k :: 0 <= k < |cs| ==> cs[k].origin.generation == gen {
        assert forall k :: 0 <= k < |init| ==> init[k].origin.generation == gen by {
          forall k | 0 <= k < |init| ensures init[k].origin.generation == gen {
            assert init[k] == cs[k];
          }
        }
      } else {
        var k :| 0 <= k < |cs| && cs[k].origin.generation != gen;
        if k < |init| {
          assert init[k] == cs[k];
        }
      }
    }
  }

  /** The game state of app.js (lines 14-20) plus the parts of the page the rules read. */
  class Game {
    var currentLevel: int
    var highScore: int
    /** The value under the `wiringHighScore` storage key. */
    var stored: Option<int>
    /** The socket columns: `dataset.color` and `dataset.connected` of each socket. */
    var left: seq<Socket>
    var right: seq<Socket>
    /** How many times `initGame` has rebuilt the columns. */
    var generation: nat
    var isDragging: bool
    var startSocket: Option<Origin>
    var connections: seq<Wire>
    var isTransitioning: bool
    var overlayVisible: bool
    /** The `setTimeout` callbacks scheduled by `checkWin` that have not run yet. */
    var timers: seq<Timer>

    /** `highScore` is what a fresh start would load from storage. */
    ghost predicate ScoreOk()
      reads this
    {
      currentLevel >= 1 && highScore == LoadedScore(stored)
    }

    /** A drag holds its origin, and the origin belongs to this or an earlier level build. */
    ghost predicate DragShapeOk()
      reads this
    {
      (isDragging <==> startSocket.Some?) &&
      (startSocket.Some? ==> startSocket.value.generation <= generation)
    }

    /** What survives `initGame`. */
    ghost predicate Persistent()
      reads this
    {
      ScoreOk() && DragShapeOk()
    }

    /** The columns are a deal for the current level. */
    ghost predicate LevelOk()
      reads this
    {
      IsLayout(currentLevel, left, right)
    }

    /** A drag from a socket of the current columns started there, and that socket is still free. */
    ghost predicate DragOk()
      reads this
    {
      startSocket.Some? ==> OriginFree(startSocket.value, left, generation)
    }

    ghost predicate LedgerOk()
      reads this
    {
      Ledger(left, right, connections, generation)
    }

    /**
     * The level is being left exactly when there are as many wires as left
     * sockets (a wire from a drag that outlived a rebuild counts as well); no
     * drag runs then, and a timer is pending to move on.
     */
    ghost predicate ProgressOk()
      reads this
    {
      (isTransitioning <==> |connections| == |left|) &&
      (isTransitioning ==> !isDragging && |timers| > 0)
    }

    ghost predicate Valid()
      reads this
    {
      Persistent() && LevelOk() && DragOk() && LedgerOk() && ProgressOk()
    }

    /** The fields no handler but the drag handlers touch. */
    twostate predicate DragUnchanged()
      reads this
    {
      isDragging == old(isDragging) && startSocket == old(startSocket)
    }

    /** The fields only `initGame` and the progression steps touch. */
    twostate predicate LevelUnchanged()
      reads this
    {
      currentLevel == old(currentLevel) && generation == old(generation) &&
      highScore == old(highScore) && stored == old(stored) &&
      overlayVisible == old(overlayVisible)
    }

    /** `initApp`: load the stored score, then build level 1. */
    constructor (storedScore: Option<int>, order: seq<int>, rightOrder: seq<int>)
      requires IsDeal(1, order, rightOrder)
      ensures Valid()
      ensures currentLevel == 1 && highScore == LoadedScore(storedScore) && stored == storedScore
      ensures left == Unconnected(LevelWires(1, order)) && right == Unconnected(RightWires(1, order, rightOrder))
      ensures connections == [] && !isDragging && startSocket == None
      ensures !isTransitioning && !overlayVisible && timers == []
    {
      currentLevel := 1;
      highScore := 1;
      stored := storedScore;
      left, right := [], [];
      generation := 0;
      isDragging := false;
      startSocket := None;
      connections := [];
      isTransitioning := false;
      overlayVisible := false;
      timers := [];
      new;
      if storedScore.Some? {
        highScore := storedScore.value;
      }
      InitGame(order, rightOrder);
    }

    /**
     * `initGame`: empty `connections`, hide the overlay, clear
     * `isTransitioning` and build both columns for `currentLevel`. A running
     * drag and the pending timers are left as they are.
     */
    method InitGame(order: seq<int>, rightOrder: seq<int>)
      requires Persistent() && IsDeal(currentLevel, order, rightOrder)
      modifies this
      ensures currentLevel == old(currentLevel) && highScore == old(highScore) && stored == old(stored)
      ensures Valid()
      ensures generation == old(generation) + 1
      ensures left == Unconnected(LevelWires(currentLevel, order)) && right == Unconnected(RightWires(currentLevel, order, rightOrder))
      ensures connections == [] && !isTransitioning && !overlayVisible
      ensures timers == old(timers) && DragUnchanged()
    {
      connections := [];
      overlayVisible := false;
      isTransitioning := false;
      generation := generation + 1;
      left, right := BuildLevel(currentLevel, order, rightOrder);
      assert LedgerOk();
      assert DragOk();
      assert Persistent();
      assert ProgressOk();
    }

    /** `handleDragStart` on left socket `i`: ignored while the level is being
      * left or when the socket is connected; otherwise a drag from it begins. */
    method DragStart(i: nat)
      requires Valid() && i < |left|
      modifies this
      ensures Valid()
      ensures if !old(isTransitioning) && !old(left[i].connected)
        then isDragging && startSocket == Some(Origin(generation, i, old(left[i].wire)))
        else DragUnchanged()
      ensures left == old(left) && right == old(right) && connections == old(connections)
      ensures isTransitioning == old(isTransitioning) && timers == old(timers) && LevelUnchanged()
    {
      if isTransitioning {
        return;
      }
      if left[i].connected {
        return;
      }
      isDragging := true;
      startSocket := Some(Origin(generation, i, left[i].wire));
    }

    /**
     * `handleDragEnd` over `target` (`None` when no socket is under the
     * pointer). When a drag is running and `Commits` holds, both sockets are
     * marked connected (the origin only if it still belongs to the current
     * columns), one wire is appended and the win check runs. Any drag ends.
     */
    method DragEnd(target: Option<SocketRef>)
      requires Valid()
      requires target.Some? ==> target.value.index < |if target.value.side == Left then left else right|
      modifies this
      ensures Valid()
      ensures !isDragging && startSocket == None
      ensures
        if old(isDragging) && old(startSocket).Some? && Commits(old(startSocket).value, target, old(right)) then
          var o, t := old(startSocket).value, target.value.index;
          right == Mark(old(right), t) &&
          left == CommitLeft(old(left), o, generation) &&
          connections == old(connections) + [Wire(o, t)] &&
          isTransitioning == (|connections| == |left|) &&
          timers == (if isTransitioning then old(timers) + [ShowOverlay] else old(timers))
        else
          left == old(left) && right == old(right) && connections == old(connections) &&
          isTransitioning == old(isTransitioning) && timers == old(timers)
      ensures LevelUnchanged()
    {
      if !isDragging || startSocket.None? {
        return;
      }
      var origin := startSocket.value;
      if Commits(origin, target, right) {
        var t := target.value.index;
        CommitKeepsLedger(left, right, connections, generation, origin, t);
        CountConnectedMark(right, t);
        CountConnectedBounds(Mark(right, t));
        left := CommitLeft(left, origin, generation);
        right := Mark(right, t);
        connections := connections + [Wire(origin, t)];
        CheckWin();
      }
      CleanUpDrag();
    }

    /** `checkWin`: once there are as many wires as left sockets, block input and schedule the overlay. */
    method CheckWin()
      modifies this
      ensures if |connections| == |left|
        then isTransitioning && timers == old(timers) + [ShowOverlay]
        else isTransitioning == old(isTransitioning) && timers == old(timers)
      ensures left == old(left) && right == old(right) && connections == old(connections)
      ensures DragUnchanged() && LevelUnchanged()
    {
      if |connections| == |left| {
        isTransitioning := true;
        timers := timers + [ShowOverlay];
      }
    }

    /** `cleanUpDrag`: no drag runs afterwards. */
    method CleanUpDrag()
      modifies this
      ensures !isDragging && startSocket == None
      ensures left == old(left) && right == old(right) && connections == old(connections)
      ensures isTransitioning == old(isTransitioning) && timers == old(timers) && LevelUnchanged()
    {
      isDragging := false;
      startSocket := None;
    }

    /** The delayed body of `stopDrag`: a drag still running (released away
      * from any right socket) is cancelled; nothing else changes. */
    method StopDrag()
      requires Valid()
      modifies this
      ensures Valid()
      ensures !isDragging && startSocket == None
      ensures left == old(left) && right == old(right) && connections == old(connections)
      ensures isTransitioning == old(isTransitioning) && timers == old(timers) && LevelUnchanged()
    {
      if isDragging {
        CleanUpDrag();
      }
    }

    /** The first `checkWin` timer fires: show the overlay and schedule the advance. */
    method FireShowOverlay(k: nat)
      requires Valid() && k < |timers| && timers[k] == ShowOverlay
      modifies this
      ensures Valid()
      ensures overlayVisible
      ensures timers == old(timers[..k] + timers[k + 1..]) + [Advance]
      ensures left == old(left) && right == old(right) && connections == old(connections)
      ensures isTransitioning == old(isTransitioning) && DragUnchanged()
      ensures currentLevel == old(currentLevel) && generation == old(generation)
      ensures highScore == old(highScore) && stored == old(stored)
    {
      overlayVisible := true;
      timers := timers[..k] + timers[k + 1..] + [Advance];
    }

    /** The second `checkWin` timer fires: go to the next level. */
    method FireAdvance(k: nat, order: seq<int>, rightOrder: seq<int>)
      requires Valid() && k < |timers| && timers[k] == Advance
      requires IsDeal(currentLevel + 1, order, rightOrder)
      modifies this
      ensures Valid()
      ensures timers == old(timers[..k] + timers[k + 1..])
      ensures currentLevel == old(currentLevel) + 1 && generation == old(generation) + 1
      ensures highScore == Max(old(highScore), currentLevel)
      ensures stored == if currentLevel > old(highScore) then Some(currentLevel) else old(stored)
      ensures left == Unconnected(LevelWires(currentLevel, order)) && right == Unconnected(RightWires(currentLevel, order, rightOrder))
      ensures connections == [] && !isTransitioning && !overlayVisible && DragUnchanged()
    {
      timers := timers[..k] + timers[k + 1..];
      NextLevel(order, rightOrder);
    }

    /**
     * `nextLevel`: one level up; the high score becomes the new level when
     * that beats it, and only then is it written to storage.
     */
    method NextLevel(order: seq<int>, rightOrder: seq<int>)
      requires Persistent() && IsDeal(currentLevel + 1, order, rightOrder)
      modifies this
      ensures Valid()
      ensures currentLevel == old(currentLevel) + 1 && generation == old(generation) + 1
      ensures highScore == Max(old(highScore), currentLevel)
      ensures stored == if currentLevel > old(highScore) then Some(currentLevel) else old(stored)
      ensures left == Unconnected(LevelWires(currentLevel, order)) && right == Unconnected(RightWires(currentLevel, order, rightOrder))
      ensures connections == [] && !isTransitioning && !overlayVisible
      ensures timers == old(timers) && DragUnchanged()
    {
      currentLevel := currentLevel + 1;
      if currentLevel > highScore {
        highScore := currentLevel;
        stored := Some(highScore);
      }
      InitGame(order, rightOrder);
    }

    /** `triggerReset`: back to level 1 with fresh columns; the score stays. */
    method TriggerReset(order: seq<int>, rightOrder: seq<int>)
      requires Valid() && IsDeal(1, order, rightOrder)
      modifies this
      ensures Valid()
      ensures currentLevel == 1 && highScore == old(highScore) && stored == old(stored)
      ensures generation == old(generation) + 1
      ensures left == Unconnected(LevelWires(1, order)) && right == Unconnected(RightWires(1, order, rightOrder))
      ensures connections == [] && !isTransitioning && !overlayVisible
      ensures timers == old(timers) && DragUnchanged()
    {
      currentLevel := 1;
      InitGame(order, rightOrder);
    }
  }

  /** The level counts as solved (`isTransitioning`) exactly when every right
    * socket is connected, and never while one is still free. */
  lemma SolvedIffAllConnected(g: Game)
    requires g.Valid()
    ensures g.isTransitioning <==> forall j :: 0 <= j < |g.right| ==> g.right[j].connected
  {
    CountConnectedBounds(g.right);
  }

  /** `connections` never holds more wires than the level has left sockets, and
    * at least as many as there are connected left sockets. */
  lemma LedgerBounds(g: Game)
    requires g.Valid()
    ensures CountConnected(g.left) <= |g.connections| <= |g.left|
  {
    CountConnectedBounds(g.right);
    CountFromBound(g.connections, g.generation);
  }

  /** When every wire was drawn from the current columns (no drag outlived a
    * level rebuild), `connections` has exactly one entry per connected left socket. */
  lemma LedgerMatchesLeft(g: Game)
    requires g.Valid()
    requires forall k :: 0 <= k < |g.connections| ==> g.connections[k].origin.generation == g.generation
    ensures CountConnected(g.left) == |g.connections|
  {
    CountFromBound(g.connections, g.generation);
  }

  /** Every left socket has exactly one right socket of its colour: the level is
    * always solvable, and the colour test never has two candidates. */
  lemma UniquePartner(g: Game, i: int)
    requires g.Valid() && 0 <= i < |g.left|
    ensures exists j :: 0 <= j < |g.right| && g.right[j].wire.color == g.left[i].wire.color
    ensures forall j, k ::
      (0 <= j < |g.right| && 0 <= k < |g.right| &&
       g.right[j].wire.color == g.left[i].wire.color && g.right[k].wire.color == g.left[i].wire.color) ==> j == k
  {
    var wl, wr := WireTypesOf(g.left), WireTypesOf(g.right);
    var w := g.left[i].wire;
    assert wl[i] == w;
    assert w in multiset(wl);
    assert w in multiset(wr);
    var j :| 0 <= j < |wr| && wr[j] == w;
    assert g.right[j].wire.color == w.color;
    forall j, k | 0 <= j < |g.right| && 0 <= k < |g.right| &&
      g.right[j].wire.color == w.color && g.right[k].wire.color == w.color
      ensures j == k
    {
      assert wr[j] == g.right[j].wire && wr[k] == g.right[k].wire;
    }
  }

  function Max(a: int, b: int): int { if a < b then b else a }
}
