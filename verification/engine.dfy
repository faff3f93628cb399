/**
 * The game-logic hook (src/hooks/useGameLogic.ts): the initial board built
 * whenever the disk count changes, the legality rule, and `moveDisk` with
 * its move counter and completion flag.
 *
 * Two behaviours of the code are kept as written:
 * - the legality rule only looks at the destination's top disk when the
 *   destination is non-empty, so a move from an empty tower onto an empty
 *   tower is legal, and `moveDisk` then pushes `undefined`;
 * - the completion flag is decided from the towers as they were BEFORE the
 *   move, so the move that completes the goal tower does not set it.
 */
module Engine {
  import opened Wrappers
  import opened GameTypes

  /** The index of the goal tower read by the win check. */
  const GoalTower := 2

  /** The hook's state before its first effect runs. */
  const MountState := GameState([[], [], []], 0, None, false)

  /** The effect run whenever the disk count changes: a fresh board with
      every disk on tower 0; the pending selection is not touched. */
  function Initialize(g: GameState, diskCount: int): (r: GameState)
    ensures LegalBoard(r.towers, diskCount)
    ensures r.towers[1] == [] && r.towers[2] == []
    ensures r.moves == 0 && !r.complete
    ensures r.selected == g.selected
  {
    InitialTowerIsFullStack(diskCount);
    g.(towers := [InitialTower(diskCount), [], []], moves := 0, complete := false)
  }

  /** The hook's legality rule: true when the destination's top reads as
      falsy (no disk, or a disk numbered 0), otherwise when the source's top
      is smaller. An empty source compares as `undefined`, which is never
      smaller. */
  function IsValidMove(towers: Towers, from: int, to: int): (r: bool)
    requires IsTowerIndex(from) && IsTowerIndex(to)
    ensures |towers[to]| == 0 ==> r
    ensures |towers[from]| == 0 && Stacked(towers[to]) ==> (r <==> |towers[to]| == 0)
    ensures |towers[from]| > 0 && |towers[to]| > 0 && Stacked(towers[from]) && Stacked(towers[to]) ==>
              (r <==> Top(towers[from]).size < Top(towers[to]).size)
    ensures |towers[to]| > 0 && (Top(towers[to]) == Undefined || Top(towers[to]) == Disk(0)) ==> r
    ensures |towers[to]| > 0 && Top(towers[to]).Disk? && Top(towers[to]).size != 0 ==>
              (r <==> Top(towers[from]).Disk? && Top(towers[from]).size < Top(towers[to]).size)
  {
    var fromDisk := Top(towers[from]);
    var toDisk := Top(towers[to]);
    Falsy(toDisk) || LessThan(fromDisk, toDisk)
  }

  /** The board after popping the source's top and pushing it on the
      destination (the copy-pop-push of `moveDisk`). */
  function Transfer(towers: Towers, from: int, to: int): Towers
    requires IsTowerIndex(from) && IsTowerIndex(to)
  {
    var disk := Top(towers[from]);
    var popped := towers[from := Pop(towers[from])];
    popped[to := popped[to] + [disk]]
  }

  /** `moveDisk`: an illegal move changes nothing; a legal one moves the
      source's top cell onto the destination, counts one move, and sets the
      completion flag when the goal tower held `diskCount` cells before the
      move. The flag is never cleared here. */
  function MoveDisk(g: GameState, from: int, to: int, diskCount: int): (r: GameState)
    requires IsTowerIndex(from) && IsTowerIndex(to)
    ensures !IsValidMove(g.towers, from, to) ==> r == g
    ensures IsValidMove(g.towers, from, to) ==> r.moves == g.moves + 1
    ensures IsValidMove(g.towers, from, to) ==>
              (r.complete <==> g.complete || |g.towers[GoalTower]| == diskCount)
    ensures IsValidMove(g.towers, from, to) && from != to ==>
              && r.towers[from] == Pop(g.towers[from])
              && r.towers[to] == g.towers[to] + [Top(g.towers[from])]
              && r.towers[3 - from - to] == g.towers[3 - from - to]
    ensures IsValidMove(g.towers, from, to) && from == to ==>
              r.towers == g.towers[from := Pop(g.towers[from]) + [Top(g.towers[from])]]
    ensures g.complete ==> r.complete
    ensures r.selected == g.selected
  {
    if IsValidMove(g.towers, from, to) then
      g.(towers := Transfer(g.towers, from, to),
         moves := g.moves + 1,
         complete := if |g.towers[GoalTower]| == diskCount then true else g.complete)
    else
      g
  }

  // ---------------------------------------------------------------------
  // Properties
  // ---------------------------------------------------------------------

  /** Moving a tower onto itself is refused whenever its top is a real
      (non-zero) disk. */
  lemma SameTowerRefused(towers: Towers, i: int)
    requires IsTowerIndex(i)
    requires |towers[i]| > 0 && Top(towers[i]).Disk? && Top(towers[i]).size != 0
    ensures !IsValidMove(towers, i, i)
  {
  }

  /** The rule accepts an empty source whenever the destination is empty too. */
  lemma EmptyOntoEmptyAccepted(towers: Towers, from: int, to: int)
    requires IsTowerIndex(from) && IsTowerIndex(to)
    requires |towers[from]| == 0 && |towers[to]| == 0
    ensures IsValidMove(towers, from, to)
  {
  }

  /** A legal move out of an empty tower pushes `undefined` onto the
      destination and still counts as a move. */
  lemma EmptySourceMovePushesUndefined(g: GameState, from: int, to: int, diskCount: int)
    requires IsTowerIndex(from) && IsTowerIndex(to) && from != to
    requires |g.towers[from]| == 0 && |g.towers[to]| == 0
    ensures MoveDisk(g, from, to, diskCount).towers[to] == [Undefined]
    ensures MoveDisk(g, from, to, diskCount).moves == g.moves + 1
    ensures AllDisks(MoveDisk(g, from, to, diskCount).towers) == AllDisks(g.towers) + multiset{Undefined}
  {
    var towers := g.towers;
    assert Pop(towers[from]) == towers[from];
    var popped: Towers := towers[from := Pop(towers[from])];
    assert popped == towers;
    AllDisksUpdate(popped, to, [Undefined]);
  }

  /** A tower that is empty also accepts a move onto itself: the move
      pushes `undefined` there and counts. */
  lemma EmptySelfMovePushesUndefined(g: GameState, i: int, diskCount: int)
    requires IsTowerIndex(i) && |g.towers[i]| == 0
    ensures IsValidMove(g.towers, i, i)
    ensures MoveDisk(g, i, i, diskCount).towers == g.towers[i := [Undefined]]
    ensures MoveDisk(g, i, i, diskCount).moves == g.moves + 1
  {
    assert Pop(g.towers[i]) + [Top(g.towers[i])] == [Undefined];
  }

  /** Replacing one tower changes the board's cells by exactly that tower's cells. */
  lemma AllDisksUpdate(towers: Towers, k: int, t: Tower)
    requires IsTowerIndex(k)
    ensures AllDisks(towers[k := t]) + multiset(towers[k]) == AllDisks(towers) + multiset(t)
  {
    var u: Towers := towers[k := t];
    if k == 0 {
      assert u[1] == towers[1] && u[2] == towers[2];
    } else if k == 1 {
      assert u[0] == towers[0] && u[2] == towers[2];
    } else {
      assert u[0] == towers[0] && u[1] == towers[1];
    }
  }

  /** Moving the top cell of a non-empty tower keeps every cell on the board. */
  lemma TransferConserves(towers: Towers, from: int, to: int)
    requires IsTowerIndex(from) && IsTowerIndex(to)
    requires |towers[from]| > 0
    ensures AllDisks(Transfer(towers, from, to)) == AllDisks(towers)
  {
    var src := towers[from];
    var disk := Top(src);
    assert src == Pop(src) + [disk];
    var popped: Towers := towers[from := Pop(src)];
    AllDisksUpdate(towers, from, Pop(src));
    assert AllDisks(popped) + multiset{disk} == AllDisks(towers);
    AllDisksUpdate(popped, to, popped[to] + [disk]);
  }

  lemma PopStacked(t: Tower)
    requires Stacked(t)
    ensures Stacked(Pop(t))
  {
  }

  lemma PushStacked(t: Tower, c: Cell)
    requires Stacked(t) && c.Disk? && c.size > 0
    requires |t| > 0 ==> c.size < Top(t).size
    ensures Stacked(t + [c])
  {
    var u := t + [c];
    forall i, j | 0 <= i < j < |u|
      ensures u[j].size < u[i].size
    {
      if j == |t| && i < |t| - 1 {
        assert t[|t| - 1].size < t[i].size;
      }
    }
  }

  /** A move out of a non-empty tower keeps the same cells on the board and
      keeps every tower strictly decreasing; so a legal board stays legal. */
  lemma MovePreservesStacking(g: GameState, from: int, to: int, diskCount: int)
    requires IsTowerIndex(from) && IsTowerIndex(to)
    requires AllStacked(g.towers)
    requires |g.towers[from]| > 0
    ensures AllDisks(MoveDisk(g, from, to, diskCount).towers) == AllDisks(g.towers)
    ensures AllStacked(MoveDisk(g, from, to, diskCount).towers)
  {
    if IsValidMove(g.towers, from, to) {
      var t := Transfer(g.towers, from, to);
      TransferConserves(g.towers, from, to);
      assert from != to;
      {
        PopStacked(g.towers[from]);
        PushStacked(g.towers[to], Top(g.towers[from]));
        assert t[3 - from - to] == g.towers[3 - from - to];
        assert Stacked(t[0]) && Stacked(t[1]) && Stacked(t[2]) by {
          if from == 0 && to == 1 { } else if from == 0 && to == 2 { } else if from == 1 && to == 0 { }
          else if from == 1 && to == 2 { } else if from == 2 && to == 0 { } else { }
        }
      }
    }
  }

  /** The flag is decided from the pre-move goal tower: a legal move sets it
      exactly when that tower already held `diskCount` cells, so the move that
      fills the goal tower leaves it unset. */
  lemma CompletionReadsPreMoveBoard(g: GameState, from: int, to: int, diskCount: int)
    requires IsTowerIndex(from) && IsTowerIndex(to) && from != to
    requires !g.complete
    requires to == GoalTower && |g.towers[GoalTower]| == diskCount - 1
    requires IsValidMove(g.towers, from, to) && |g.towers[from]| > 0
    ensures |MoveDisk(g, from, to, diskCount).towers[GoalTower]| == diskCount
    ensures !MoveDisk(g, from, to, diskCount).complete
  {
  }

  /** The three-disk game played optimally: after the seven moves every disk
      sits on the goal tower in order, yet the completion flag is still unset;
      one more legal move sets it. */
  lemma ThreeDiskOptimalGame()
    ensures var g0 := Initialize(MountState, 3);
            var g7 := MoveDisk(MoveDisk(MoveDisk(MoveDisk(MoveDisk(MoveDisk(MoveDisk(
                        g0, 0, 2, 3), 0, 1, 3), 2, 1, 3), 0, 2, 3), 1, 0, 3), 1, 2, 3), 0, 2, 3);
            && g0.towers == [[Disk(3), Disk(2), Disk(1)], [], []]
            && g7.towers == [[], [], [Disk(3), Disk(2), Disk(1)]]
            && g7.moves == 7
            && !g7.complete
            && MoveDisk(g7, 2, 0, 3).complete
  {
    var g0 := Initialize(MountState, 3);
    assert g0.towers[0] == [Disk(3), Disk(2), Disk(1)];
    var g1 := MoveDisk(g0, 0, 2, 3);
    TowersEq(g1.towers, [[Disk(3), Disk(2)], [], [Disk(1)]]);
    var g2 := MoveDisk(g1, 0, 1, 3);
    TowersEq(g2.towers, [[Disk(3)], [Disk(2)], [Disk(1)]]);
    var g3 := MoveDisk(g2, 2, 1, 3);
    TowersEq(g3.towers, [[Disk(3)], [Disk(2), Disk(1)], []]);
    var g4 := MoveDisk(g3, 0, 2, 3);
    TowersEq(g4.towers, [[], [Disk(2), Disk(1)], [Disk(3)]]);
    var g5 := MoveDisk(g4, 1, 0, 3);
    TowersEq(g5.towers, [[Disk(1)], [Disk(2)], [Disk(3)]]);
    var g6 := MoveDisk(g5, 1, 2, 3);
    TowersEq(g6.towers, [[Disk(1)], [], [Disk(3), Disk(2)]]);
    var g7 := MoveDisk(g6, 0, 2, 3);
    TowersEq(g7.towers, [[], [], [Disk(3), Disk(2), Disk(1)]]);
  }

  lemma TowersEq(a: Towers, b: Towers)
    requires a[0] == b[0] && a[1] == b[1] && a[2] == b[2]
    ensures a == b
  {
  }

  /** Moving disk 3 onto a tower whose top is disk 2 is refused and changes nothing. */
  lemma LargerOntoSmallerRefused(g: GameState, diskCount: int)
    requires g.towers == [[Disk(3)], [Disk(2)], []]
    ensures !IsValidMove(g.towers, 0, 1)
    ensures MoveDisk(g, 0, 1, diskCount) == g
  {
  }
}
