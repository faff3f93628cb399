/**
 * The shapes of the game: towers of disks, the engine's state, moves,
 * game results, player statistics and the two enumerations (game mode and
 * difficulty). Modelled on src/types/game.ts.
 */
module GameTypes {
  import opened Wrappers

  // ---------------------------------------------------------------------
  // Disks and towers
  // ---------------------------------------------------------------------

  /** One slot of a tower array. A disk is a number whose value is its size.
      `Undefined` is what JavaScript yields for `tower[tower.length - 1]` on an
      empty array and what `pop()` returns for one; pushing that value makes
      it an element of the array. */
  datatype Cell = Disk(size: int) | Undefined

  /** A tower lists its cells bottom first. */
  type Tower = seq<Cell>

  /** Always exactly three towers, indexed 0, 1, 2. */
  type Towers = s: seq<Tower> | |s| == 3 witness [[], [], []]

  /** Reading `towers[i].length` for any other index throws a TypeError. */
  predicate IsTowerIndex(i: int) {
    0 <= i < 3
  }

  /** `tower[tower.length - 1]`: the top cell, or `undefined` when empty. */
  function Top(t: Tower): Cell {
    if |t| == 0 then Undefined else t[|t| - 1]
  }

  /** The array after `tower.pop()`; popping an empty array leaves it empty. */
  function Pop(t: Tower): Tower {
    if |t| == 0 then [] else t[..|t| - 1]
  }

  /** JavaScript truthiness of a cell read as a number: `undefined` and `0` are falsy. */
  predicate Falsy(c: Cell) {
    c == Undefined || c == Disk(0)
  }

  /** JavaScript `a < b` on two cells: any comparison with `undefined` is false. */
  predicate LessThan(a: Cell, b: Cell) {
    a.Disk? && b.Disk? && a.size < b.size
  }

  /** A properly stacked tower: every cell is a positive disk and sizes
      strictly decrease from bottom to top. */
  predicate Stacked(t: Tower) {
    && (forall i :: 0 <= i < |t| ==> t[i].Disk? && t[i].size > 0)
    && (forall i, j :: 0 <= i < j < |t| ==> t[i].Disk? && t[j].Disk? && t[j].size < t[i].size)
  }

  /** Every cell on the board, regardless of tower. */
  function AllDisks(towers: Towers): multiset<Cell> {
    multiset(towers[0]) + multiset(towers[1]) + multiset(towers[2])
  }

  /** The disks 1..n, each once. */
  function DiskSet(n: int): multiset<Cell>
    decreases if n < 0 then 0 else n
  {
    if n <= 0 then multiset{} else DiskSet(n - 1) + multiset{Disk(n)}
  }

  /** Every tower of the board is properly stacked. */
  predicate AllStacked(towers: Towers) {
    Stacked(towers[0]) && Stacked(towers[1]) && Stacked(towers[2])
  }

  /** A board of n disks in a legal position: all towers stacked, and
      together they hold exactly the disks 1..n. */
  predicate LegalBoard(towers: Towers, n: int) {
    AllStacked(towers) && AllDisks(towers) == DiskSet(n)
  }

  /** `Array.from({length: n}, (_, i) => n - i)`. A negative length is
      clamped to 0 by the array constructor's length conversion. */
  function InitialTower(n: int): Tower {
    if n <= 0 then [] else seq(n, i requires 0 <= i < n => Disk(n - i))
  }

  lemma {:induction false} DiskSetCount(n: int, k: int)
    ensures DiskSet(n)[Disk(k)] == if 1 <= k <= n then 1 else 0
    decreases if n < 0 then 0 else n
  {
    if n > 0 {
      DiskSetCount(n - 1, k);
    }
  }

  lemma InitialTowerCons(n: int)
    requires n > 0
    ensures InitialTower(n) == [Disk(n)] + InitialTower(n - 1)
  {
    var t, u := InitialTower(n), InitialTower(n - 1);
    assert |t| == 1 + |u|;
    forall i | 0 <= i < |t|
      ensures t[i] == ([Disk(n)] + u)[i]
    {
      if i > 0 {
        assert u[i - 1] == Disk(n - 1 - (i - 1));
      }
    }
  }

  lemma {:induction false} InitialTowerMultiset(n: int)
    ensures multiset(InitialTower(n)) == DiskSet(n)
    decreases if n < 0 then 0 else n
  {
    if n > 0 {
      InitialTowerMultiset(n - 1);
      InitialTowerCons(n);
      ConsMultiset(InitialTower(n), InitialTower(n - 1), Disk(n), DiskSet(n - 1));
    }
  }

  lemma ConsMultiset(t: Tower, u: Tower, x: Cell, m: multiset<Cell>)
    requires t == [x] + u && multiset(u) == m
    ensures multiset(t) == m + multiset{x}
  {
  }

  /** Position i of the initial tower holds disk n - i. */
  lemma InitialTowerAt(n: int)
    ensures |InitialTower(n)| == if n > 0 then n else 0
    ensures forall i :: 0 <= i < |InitialTower(n)| ==> InitialTower(n)[i] == Disk(n - i)
  {
  }

  lemma InitialTowerStacked(n: int)
    ensures Stacked(InitialTower(n))
  {
    InitialTowerAt(n);
  }

  lemma InitialTowerCells(n: int)
    ensures forall c :: c in InitialTower(n) ==> c.Disk? && 1 <= c.size <= n
  {
    InitialTowerAt(n);
    var t := InitialTower(n);
    forall c | c in t
      ensures c.Disk? && 1 <= c.size <= n
    {
      var i :| 0 <= i < |t| && t[i] == c;
    }
  }

  /** The initial tower is n, n-1, ..., 1: strictly decreasing, holding each
      of the disks 1..n exactly once and nothing else. */
  lemma InitialTowerIsFullStack(n: int)
    ensures |InitialTower(n)| == if n > 0 then n else 0
    ensures Stacked(InitialTower(n))
    ensures multiset(InitialTower(n)) == DiskSet(n)
    ensures forall k :: 1 <= k <= n ==> multiset(InitialTower(n))[Disk(k)] == 1
    ensures forall c :: c in InitialTower(n) ==> c.Disk? && 1 <= c.size <= n
  {
    InitialTowerAt(n);
    InitialTowerStacked(n);
    InitialTowerCells(n);
    InitialTowerMultiset(n);
    forall k | 1 <= k <= n
      ensures multiset(InitialTower(n))[Disk(k)] == 1
    {
      DiskSetCount(n, k);
    }
  }

  // ---------------------------------------------------------------------
  // Engine state and moves
  // ---------------------------------------------------------------------

  /** A selection: the tower picked up from and the disk seen on top of it. */
  datatype SelectedDisk = SelectedDisk(tower: int, disk: Cell)

  /** What the game-logic hook holds: the board, the move counter, the
      pending selection and the completion flag. */
  datatype GameState = GameState(
    towers: Towers,
    moves: int,
    selected: Option<SelectedDisk>,
    complete: bool)

  /** A move between towers and the disk it carries (the hint's shape). */
  datatype Move = Move(fromTower: int, toTower: int, disk: Cell)

  // ---------------------------------------------------------------------
  // Modes, difficulties, results
  // ---------------------------------------------------------------------

  datatype GameMode = Arcade | Normal | Dynamic {
    /** The string value the enumeration stores. */
    function Tag(): string {
      match this
      case Arcade => "arcade"
      case Normal => "normal"
      case Dynamic => "dynamic"
    }
  }

  /** A difficulty's numeric value is the number of disks it plays with. */
  datatype Difficulty = Easy | Medium | Hard | Expert | Master {
    function DiskCount(): int {
      match this
      case Easy => 3
      case Medium => 4
      case Hard => 5
      case Expert => 6
      case Master => 7
    }

    /** The enumeration member's own name. */
    function Label(): string {
      match this
      case Easy => "Easy"
      case Medium => "Medium"
      case Hard => "Hard"
      case Expert => "Expert"
      case Master => "Master"
    }
  }

  /** The difficulty whose numeric value is n, if any. */
  function DifficultyOf(n: int): (r: Option<Difficulty>)
    ensures r.Some? <==> 3 <= n <= 7
    ensures r.Some? ==> r.value.DiskCount() == n
  {
    if n == 3 then Some(Easy)
    else if n == 4 then Some(Medium)
    else if n == 5 then Some(Hard)
    else if n == 6 then Some(Expert)
    else if n == 7 then Some(Master)
    else None
  }

  /** The numeric values are 3..7 and tell the difficulties apart. */
  lemma DifficultyValuesRoundTrip(d: Difficulty)
    ensures 3 <= d.DiskCount() <= 7
    ensures DifficultyOf(d.DiskCount()) == Some(d)
  {
  }

  lemma GameModeTagsDistinct(a: GameMode, b: GameMode)
    ensures a.Tag() == b.Tag() <==> a == b
  {
  }

  /** A finished game's summary. `completedAt` is an abstract timestamp. */
  datatype GameResult = GameResult(
    difficulty: Difficulty,
    moves: int,
    time: int,
    completedAt: int,
    optimalMoves: int,
    moveEfficiency: real,
    gameMode: GameMode)

  /** A player's record; `skillLevel` is meant to range over 1..5. */
  datatype PlayerStats = PlayerStats(
    id: string,
    name: string,
    recentGames: seq<GameResult>,
    skillLevel: int,
    currentDifficulty: Difficulty)

  /** What the start screen hands to the game; the difficulty is optional. */
  datatype GameSettings = GameSettings(
    mode: GameMode,
    playerName: string,
    difficulty: Option<Difficulty>)

  /** A game result together with the player who achieved it. */
  datatype LeaderboardEntry = LeaderboardEntry(
    id: string,
    playerName: string,
    result: GameResult)
}
