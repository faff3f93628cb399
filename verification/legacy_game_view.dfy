/**
 * The earlier game screen, towers-of-hanoi/src/components/Game.tsx. Its
 * click and disk-count handlers are the same as the current screen's
 * (GameView.HandleDiskClick, GameView.HandleDiskCountChange); only its
 * reset differs: it sets the disk count to the value it already has, so
 * the hook's initialisation does not run again.
 */
module LegacyGameView {
  import opened GameTypes
  import GameView

  /** `handleReset`: hide the dialog, zero the time, and set the disk count
      to itself. */
  function HandleReset(v: GameView.View): (r: GameView.View)
    ensures r.time == 0 && !r.showWinModal
    ensures r.diskCount == v.diskCount
    ensures r.game == v.game
  {
    GameView.SetDiskCount(v, v.diskCount).(showWinModal := false, time := 0)
  }

  /** The earlier reset leaves a game in progress where it is, selection
      included, while the current reset (with its deferred step) restarts
      it from the initial tower with nothing selected. */
  lemma ResetsCompared(v: GameView.View)
    requires v.diskCount != 0
    requires v.game.moves > 0
    ensures HandleReset(v).game.moves == v.game.moves
    ensures HandleReset(v).game.towers == v.game.towers
    ensures HandleReset(v).game.selected == v.game.selected
    ensures GameView.ResetTimeout(GameView.HandleReset(v), v.diskCount).game.moves == 0
    ensures GameView.ResetTimeout(GameView.HandleReset(v), v.diskCount).game.towers
            == [InitialTower(v.diskCount), [], []]
  {
    GameView.ResetRestartsGame(v);
  }
}
