/**
 * Moving a disk by dragging it (src/hooks/useDragAndDrop.ts): press on a
 * tower to pick up its top disk, release over another tower to move it
 * there. The pointer position arrives as canvas-relative coordinates; the
 * release position selects the target tower by splitting the canvas width
 * into three equal columns.
 */
module DragAndDrop {
  import opened Wrappers
  import opened GameTypes
  import Engine

  datatype DragState = DragState(isDragging: bool, dragStartX: real, dragStartY: real)

  /** The drag state at rest. */
  const Idle := DragState(false, 0.0, 0.0)

  /** The drag hook's state (the drag record and the dragged-disk reference)
      together with the game-logic hook it drives. */
  datatype DragWorld = DragWorld(drag: DragState, dragged: Option<SelectedDisk>, game: GameState)

  /** `Math.floor((x / width) * 3)`: the column under a release at x. */
  function TargetTower(x: real, width: real): int
    requires width > 0.0
  {
    ((x / width) * 3.0).Floor
  }

  lemma ScaledQuotient(x: real, width: real)
    requires width > 0.0
    ensures (x / width) * 3.0 * width == 3.0 * x
  {
  }

  lemma CompareScaled(q: real, c: real, w: real, p: real)
    requires w > 0.0 && q * w == p
    ensures q < c <==> p < c * w
  {
    assert c * w - p == (c - q) * w;
  }

  /** A release inside the canvas lands on a real tower, and the three
      columns are equally wide and in order. */
  lemma TargetTowerInRange(x: real, width: real)
    requires width > 0.0 && 0.0 <= x < width
    ensures IsTowerIndex(TargetTower(x, width))
    ensures TargetTower(x, width) == 0 <==> 3.0 * x < width
    ensures TargetTower(x, width) == 2 <==> 3.0 * x >= 2.0 * width
  {
    var q := (x / width) * 3.0;
    ScaledQuotient(x, width);
    CompareScaled(q, 0.0, width, 3.0 * x);
    CompareScaled(q, 1.0, width, 3.0 * x);
    CompareScaled(q, 2.0, width, 3.0 * x);
    CompareScaled(q, 3.0, width, 3.0 * x);
    var k := q.Floor;
    assert k as real <= q < k as real + 1.0;
  }

  /** `handleDragStart` at canvas point (x, y) over tower i: nothing happens
      on an empty tower; otherwise its top disk becomes both the dragged disk
      and the selection, and dragging starts at (x, y). */
  function DragStart(w: DragWorld, i: int, x: real, y: real): (r: DragWorld)
    requires IsTowerIndex(i)
    ensures |w.game.towers[i]| == 0 ==> r == w
    ensures |w.game.towers[i]| > 0 ==>
              && r.drag == DragState(true, x, y)
              && r.dragged == Some(SelectedDisk(i, Top(w.game.towers[i])))
              && r.game == w.game.(selected := r.dragged)
  {
    var tower := w.game.towers[i];
    if |tower| == 0 then w
    else
      var held := SelectedDisk(i, tower[|tower| - 1]);
      DragWorld(DragState(true, x, y), Some(held), w.game.(selected := Some(held)))
  }

  /** `handleDragMove` computes a position it does not store: no state changes. */
  function DragMove(w: DragWorld, x: real): (r: DragWorld)
    ensures r == w
  {
    w
  }

  /** Whether a release does anything: only while dragging a disk. */
  predicate Dragging(w: DragWorld) {
    w.drag.isDragging && w.dragged.Some?
  }

  /** `handleDragEnd` over tower `target`: outside a drag nothing happens;
      otherwise the disk is moved when the target differs from its tower,
      and the drag state, the dragged disk and the selection are cleared. */
  function DragEnd(w: DragWorld, target: int, diskCount: int): (r: DragWorld)
    requires Dragging(w) ==> IsTowerIndex(w.dragged.value.tower)
    requires Dragging(w) && target != w.dragged.value.tower ==> IsTowerIndex(target)
    ensures !Dragging(w) ==> r == w
    ensures Dragging(w) ==> r.drag == Idle && r.dragged.None? && r.game.selected.None?
    ensures Dragging(w) && target == w.dragged.value.tower ==> r.game == w.game.(selected := None)
    ensures Dragging(w) && target != w.dragged.value.tower ==>
              r.game == Engine.MoveDisk(w.game, w.dragged.value.tower, target, diskCount).(selected := None)
  {
    if !w.drag.isDragging || w.dragged.None? then w
    else
      var from := w.dragged.value.tower;
      var moved := if target != from then Engine.MoveDisk(w.game, from, target, diskCount) else w.game;
      DragWorld(Idle, None, moved.(selected := None))
  }

  /** A drag from a non-empty tower s released over a different tower t is
      exactly the engine's move from s to t, and leaves nothing selected or
      dragged: the same outcome as the two-click protocol. */
  lemma DragMatchesMove(g: GameState, s: int, t: int, x: real, y: real, diskCount: int)
    requires IsTowerIndex(s) && IsTowerIndex(t) && s != t
    requires |g.towers[s]| > 0 && g.selected.None?
    ensures DragEnd(DragStart(DragWorld(Idle, None, g), s, x, y), t, diskCount)
            == DragWorld(Idle, None, Engine.MoveDisk(g, s, t, diskCount))
  {
  }

  /** Releasing over the tower the disk came from changes nothing on the
      board: no move is counted and only the selection is cleared. */
  lemma DropOnSourceIsNoMove(g: GameState, s: int, x: real, y: real, diskCount: int)
    requires IsTowerIndex(s) && |g.towers[s]| > 0
    ensures var r := DragEnd(DragStart(DragWorld(Idle, None, g), s, x, y), s, diskCount);
            r.game.towers == g.towers && r.game.moves == g.moves && r.game.selected.None?
  {
  }

  /** A drag keeps a legal board legal. */
  lemma DragPreservesLegalBoard(w: DragWorld, target: int, diskCount: int)
    requires LegalBoard(w.game.towers, diskCount)
    requires Dragging(w) ==> IsTowerIndex(w.dragged.value.tower) && |w.game.towers[w.dragged.value.tower]| > 0
    requires Dragging(w) && target != w.dragged.value.tower ==> IsTowerIndex(target)
    ensures LegalBoard(DragEnd(w, target, diskCount).game.towers, diskCount)
  {
    if Dragging(w) && target != w.dragged.value.tower {
      Engine.MovePreservesStacking(w.game, w.dragged.value.tower, target, diskCount);
    }
  }
}
