/**
 * The game screen of src/components/Game.tsx: the time display, the
 * two-click select-then-move protocol, reset, and the disk-count change.
 *
 * The screen keeps the disk count, the elapsed seconds and whether the win
 * dialog shows; the game-logic hook keeps the board and the selection.
 * Changing the disk count re-runs the hook's initialisation, and React does
 * not re-run it when the new count equals the old one. The one-second
 * timer and the effect that opens the win dialog are outside the model.
 */
module GameView {
  import opened Wrappers
  import opened GameTypes
  import opened Decimal
  import Engine

  datatype View = View(diskCount: int, time: int, showWinModal: bool, game: GameState)

  /** The screen as first shown: three disks, the hook initialised for them. */
  function Mount(): View {
    View(3, 0, false, Engine.Initialize(Engine.MountState, 3))
  }

  /** A pending selection names a real tower. */
  predicate SelectionInRange(g: GameState) {
    g.selected.Some? ==> IsTowerIndex(g.selected.value.tower)
  }

  /** `setDiskCount(count)` together with the hook's initialisation effect,
      which runs only when the count actually changes. */
  function SetDiskCount(v: View, count: int): (r: View)
    ensures count == v.diskCount ==> r == v
    ensures count != v.diskCount ==> r.diskCount == count && r.game == Engine.Initialize(v.game, count)
    ensures r.time == v.time && r.showWinModal == v.showWinModal
    ensures r.game.selected == v.game.selected
  {
    if count == v.diskCount then v
    else v.(diskCount := count, game := Engine.Initialize(v.game, count))
  }

  // ---------------------------------------------------------------------
  // Time display
  // ---------------------------------------------------------------------

  /** `formatTime`: "{s}s" under a minute, "{m}m {s}s" from a minute on. */
  function FormatTime(seconds: int): (r: string)
    ensures |r| > 0 && r[|r| - 1] == 's'
    ensures seconds < 60 ==> r == IntToString(seconds) + "s"
  {
    if seconds < 60 then IntToString(seconds) + "s"
    else NatToString(seconds / 60) + "m " + NatToString(seconds % 60) + "s"
  }

  /** The first position of c in s. */
  function FindChar(s: string, c: char): (r: Option<nat>)
    ensures r.Some? ==> r.value < |s| && s[r.value] == c && forall k :: 0 <= k < r.value ==> s[k] != c
    ensures r.None? ==> forall k :: 0 <= k < |s| ==> s[k] != c
  {
    if |s| == 0 then None
    else if s[0] == c then Some(0)
    else match FindChar(s[1..], c)
      case None => None
      case Some(k) => Some(k + 1)
  }

  /** Reads a displayed time back as seconds: "{s}s", or "{m}m {s}s" with
      s below 60. */
  function ParseTime(t: string): Option<int> {
    if |t| == 0 || t[|t| - 1] != 's' then None
    else
      var body := t[..|t| - 1];
      match FindChar(body, 'm')
      case None =>
        (match ParseNat(body)
         case None => None
         case Some(s) => Some(s))
      case Some(k) =>
        if k + 1 < |body| && body[k + 1] == ' ' then
          match (ParseNat(body[..k]), ParseNat(body[k + 2..]))
          case (Some(m), Some(s)) => if s < 60 then Some(m * 60 + s) else None
          case _ => None
        else None
  }

  lemma DigitsHaveNoM(s: string)
    requires AllDigits(s)
    ensures FindChar(s, 'm').None?
  {
    assert forall k :: 0 <= k < |s| ==> s[k] != 'm' by {
      forall k | 0 <= k < |s| ensures s[k] != 'm' {
        assert IsDigit(s[k]);
      }
    }
  }

  /** From a minute on, the display is whole minutes and a seconds part below 60. */
  lemma FormatTimeMinutes(seconds: int)
    requires seconds >= 60
    ensures var m, s := seconds / 60, seconds % 60;
            && m >= 1 && 0 <= s < 60 && m * 60 + s == seconds
            && FormatTime(seconds) == NatToString(m) + "m " + NatToString(s) + "s"
  {
  }

  /** Every non-negative time reads back from its display. */
  lemma FormatTimeRoundTrip(seconds: int)
    requires seconds >= 0
    ensures ParseTime(FormatTime(seconds)) == Some(seconds)
  {
    var t := FormatTime(seconds);
    var body := t[..|t| - 1];
    if seconds < 60 {
      assert body == NatToString(seconds);
      DigitsHaveNoM(body);
      ParseNatRoundTrip(seconds);
    } else {
      var a, b := NatToString(seconds / 60), NatToString(seconds % 60);
      assert body == a + "m " + b;
      DigitsHaveNoM(a);
      var k := |a|;
      assert FindChar(body, 'm') == Some(k) by {
        assert body[k] == 'm';
        assert forall j :: 0 <= j < k ==> body[j] == a[j];
      }
      assert body[..k] == a && body[k + 1] == ' ' && body[k + 2..] == b;
      ParseNatRoundTrip(seconds / 60);
      ParseNatRoundTrip(seconds % 60);
    }
  }

  // ---------------------------------------------------------------------
  // Select-then-move by clicks
  // ---------------------------------------------------------------------

  /** `handleDiskClick`: with nothing selected, a click on a non-empty tower
      selects it and its top disk and a click on an empty tower does
      nothing; with a selection, any click asks the hook to move from the
      selected tower to the clicked one and clears the selection, whether
      or not the move was legal. */
  function HandleDiskClick(v: View, i: int): (r: View)
    requires IsTowerIndex(i) && SelectionInRange(v.game)
    ensures r.diskCount == v.diskCount && r.time == v.time && r.showWinModal == v.showWinModal
    ensures v.game.selected.None? && |v.game.towers[i]| > 0 ==>
              r.game == v.game.(selected := Some(SelectedDisk(i, Top(v.game.towers[i]))))
    ensures v.game.selected.None? && |v.game.towers[i]| == 0 ==> r == v
    ensures v.game.selected.Some? ==>
              && r.game.selected.None?
              && r.game.(selected := None) ==
                 Engine.MoveDisk(v.game, v.game.selected.value.tower, i, v.diskCount).(selected := None)
  {
    match v.game.selected
    case None =>
      if |v.game.towers[i]| > 0 then
        v.(game := v.game.(selected := Some(SelectedDisk(i, Top(v.game.towers[i])))))
      else v
    case Some(sel) =>
      var moved := Engine.MoveDisk(v.game, sel.tower, i, v.diskCount);
      v.(game := moved.(selected := None))
  }

  /** The selection, when present, names a non-empty tower and its top disk. */
  predicate SelectionLive(g: GameState) {
    g.selected.Some? ==>
      && IsTowerIndex(g.selected.value.tower)
      && |g.towers[g.selected.value.tower]| > 0
      && Top(g.towers[g.selected.value.tower]) == g.selected.value.disk
  }

  /** Two clicks, on a non-empty tower s and then on t, make exactly the
      move from s to t and leave nothing selected. */
  lemma ClickPairIsMove(v: View, s: int, t: int)
    requires IsTowerIndex(s) && IsTowerIndex(t)
    requires v.game.selected.None? && |v.game.towers[s]| > 0
    ensures HandleDiskClick(HandleDiskClick(v, s), t) ==
            v.(game := Engine.MoveDisk(v.game, s, t, v.diskCount))
  {
  }

  /** Clicks keep a legal board legal and a selection live: the selected
      tower is non-empty whenever the move is asked for. */
  lemma ClickPreservesLegalBoard(v: View, i: int)
    requires IsTowerIndex(i)
    requires LegalBoard(v.game.towers, v.diskCount) && SelectionLive(v.game)
    ensures LegalBoard(HandleDiskClick(v, i).game.towers, v.diskCount)
    ensures SelectionLive(HandleDiskClick(v, i).game)
  {
    if v.game.selected.Some? {
      Engine.MovePreservesStacking(v.game, v.game.selected.value.tower, i, v.diskCount);
    }
  }

  // ---------------------------------------------------------------------
  // Reset and disk count
  // ---------------------------------------------------------------------

  /** The synchronous part of `handleReset`: hide the dialog, zero the time,
      clear the selection and set the disk count to 0 (which re-initialises
      the hook with no disks unless the count already was 0). */
  function HandleReset(v: View): (r: View)
    ensures r.time == 0 && !r.showWinModal && r.game.selected.None?
    ensures r.diskCount == 0
    ensures v.diskCount != 0 ==> r.game.towers == [[], [], []] && r.game.moves == 0 && !r.game.complete
  {
    SetDiskCount(v.(showWinModal := false, time := 0, game := v.game.(selected := None)), 0)
  }

  /** The deferred part of `handleReset`: restore the saved disk count. */
  function ResetTimeout(v: View, savedCount: int): View {
    SetDiskCount(v, savedCount)
  }

  /** Reset followed by its deferred step, with nothing in between, starts a
      fresh game with the same disk count, zero time, no dialog and no
      selection. */
  lemma ResetRestartsGame(v: View)
    requires v.diskCount != 0
    ensures var r := ResetTimeout(HandleReset(v), v.diskCount);
            && r.diskCount == v.diskCount && r.time == 0 && !r.showWinModal
            && r.game.selected.None?
            && r.game.towers == [InitialTower(v.diskCount), [], []]
            && r.game.moves == 0 && !r.game.complete
  {
  }

  /** `handleDiskCountChange`: the new count (re-initialising the hook when
      it differs), zero time, no dialog. The selection is left as it was. */
  function HandleDiskCountChange(v: View, count: int): (r: View)
    ensures r.diskCount == count && r.time == 0 && !r.showWinModal
    ensures r.game.selected == v.game.selected
    ensures count != v.diskCount ==> r.game.towers == [InitialTower(count), [], []] && r.game.moves == 0 && !r.game.complete
    ensures count == v.diskCount ==> r.game == v.game
  {
    SetDiskCount(v, count).(time := 0, showWinModal := false)
  }

  /** Because the disk-count change keeps a pending selection, a selection
      made on tower 1 or 2 points at an empty tower afterwards; the next
      click on the other empty tower is then a legal move in the hook, which
      pushes `undefined`, counts a move and leaves the board unstacked. */
  lemma {:induction false} StaleSelectionAfterCountChange(v: View, count: int, target: int)
    requires count != v.diskCount
    requires v.game.selected.Some? && v.game.selected.value.tower in {1, 2}
    requires target in {1, 2} && target != v.game.selected.value.tower
    ensures var w := HandleDiskClick(HandleDiskCountChange(v, count), target);
            && w.game.towers[target] == [Undefined]
            && w.game.moves == 1
            && !AllStacked(w.game.towers)
  {
    var u := HandleDiskCountChange(v, count);
    Engine.EmptySourceMovePushesUndefined(u.game, v.game.selected.value.tower, target, count);
    var w := HandleDiskClick(u, target);
    assert w.game.towers[target] == [Undefined];
    assert !Stacked(w.game.towers[target]);
  }

  /** The situation above arises in play: from the first screen, moving
      the top disk from tower 0 to tower 1 and then clicking tower 1 leaves
      a legal board with a live selection on tower 1. */
  lemma StaleSelectionReachable()
    ensures var v := HandleDiskClick(HandleDiskClick(HandleDiskClick(Mount(), 0), 1), 1);
            && v.diskCount == 3
            && LegalBoard(v.game.towers, 3) && SelectionLive(v.game)
            && v.game.selected.Some? && v.game.selected.value.tower == 1
  {
    var v0 := Mount();
    var v1 := HandleDiskClick(v0, 0);
    var v2 := HandleDiskClick(v1, 1);
    ClickPreservesLegalBoard(v0, 0);
    ClickPreservesLegalBoard(v1, 1);
    ClickPreservesLegalBoard(v2, 1);
    assert |v0.game.towers[0]| == 3 by {
      InitialTowerIsFullStack(3);
    }
    assert |v2.game.towers[1]| == 1;
  }
}
