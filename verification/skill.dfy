/**
 * The dynamic-difficulty arithmetic of src/services/gameService.ts: the
 * ten-game history kept newest first, the skill level clamped to 1..5 from
 * the average move efficiency, and the skill-to-difficulty mapping.
 *
 * Reading and writing the player record is outside the model; the record
 * read is the input and the record to be written is the output. Efficiencies
 * are exact reals here, not floating-point numbers.
 */
module Skill {
  import opened GameTypes

  /** How many recent games a player record keeps. */
  const RecentCapacity := 10

  /** The lowest and highest skill levels. */
  const MinSkill := 1
  const MaxSkill := 5

  /** `[result, ...recent.slice(0, 9)]`. */
  function PushRecent(recent: seq<GameResult>, result: GameResult): (r: seq<GameResult>)
    ensures 1 <= |r| <= RecentCapacity
    ensures |r| == if |recent| < RecentCapacity then |recent| + 1 else RecentCapacity
    ensures r[0] == result
    ensures r[1..] == recent[..|r| - 1]
  {
    var kept := if |recent| < RecentCapacity - 1 then |recent| else RecentCapacity - 1;
    [result] + recent[..kept]
  }

  function SumEfficiency(games: seq<GameResult>): real {
    if |games| == 0 then 0.0 else SumEfficiency(games[..|games| - 1]) + games[|games| - 1].moveEfficiency
  }

  /** The mean move efficiency; only defined for a non-empty list. */
  function AverageEfficiency(games: seq<GameResult>): real
    requires |games| > 0
  {
    SumEfficiency(games) / (|games| as real)
  }

  /** `Math.min(5, Math.max(1, Math.floor(avg * 5)))`. */
  function SkillLevel(avg: real): (r: int)
    ensures MinSkill <= r <= MaxSkill
    ensures MinSkill <= (avg * 5.0).Floor <= MaxSkill ==> r == (avg * 5.0).Floor
    ensures (avg * 5.0).Floor < MinSkill ==> r == MinSkill
    ensures (avg * 5.0).Floor > MaxSkill ==> r == MaxSkill
  {
    var scaled := (avg * 5.0).Floor;
    var atLeastOne := if scaled > MinSkill then scaled else MinSkill;
    if atLeastOne < MaxSkill then atLeastOne else MaxSkill
  }

  /** `calculateNewDifficulty`: skill levels 1..5 select Easy..Master; any
      other value selects Easy. */
  function CalculateNewDifficulty(skillLevel: int): (d: Difficulty)
    ensures MinSkill <= skillLevel <= MaxSkill ==> d.DiskCount() == skillLevel + 2
    ensures !(MinSkill <= skillLevel <= MaxSkill) ==> d == Easy
  {
    match skillLevel
    case 1 => Easy
    case 2 => Medium
    case 3 => Hard
    case 4 => Expert
    case 5 => Master
    case _ => Easy
  }

  /** The record `updatePlayerStats` writes after a finished game: the new
      result heads the history, the skill level is recomputed over the whole
      new history (never empty, so the average is defined), and the
      difficulty follows the skill level. */
  function UpdatePlayerStats(player: PlayerStats, result: GameResult): (r: PlayerStats)
    ensures r.id == player.id && r.name == player.name
    ensures r.recentGames == PushRecent(player.recentGames, result)
    ensures MinSkill <= r.skillLevel <= MaxSkill
    ensures r.skillLevel == SkillLevel(AverageEfficiency(r.recentGames))
    ensures r.currentDifficulty.DiskCount() == r.skillLevel + 2
  {
    var recent := PushRecent(player.recentGames, result);
    var skill := SkillLevel(AverageEfficiency(recent));
    player.(recentGames := recent, skillLevel := skill, currentDifficulty := CalculateNewDifficulty(skill))
  }

  // ---------------------------------------------------------------------
  // Properties
  // ---------------------------------------------------------------------

  /** The history after a series of games, starting from an empty record. */
  function History(results: seq<GameResult>): seq<GameResult> {
    if |results| == 0 then [] else PushRecent(History(results[..|results| - 1]), results[|results| - 1])
  }

  function Reverse(s: seq<GameResult>): seq<GameResult> {
    if |s| == 0 then [] else [s[|s| - 1]] + Reverse(s[..|s| - 1])
  }

  lemma {:induction false} ReverseLength(s: seq<GameResult>)
    ensures |Reverse(s)| == |s|
  {
    if |s| > 0 {
      ReverseLength(s[..|s| - 1]);
    }
  }

  lemma {:induction false} ReversePrefix(s: seq<GameResult>, k: nat)
    requires k <= |s|
    ensures |Reverse(s)| == |s|
    ensures Reverse(s)[..k] == Reverse(s[|s| - k..])
  {
    ReverseLength(s);
    if k > 0 {
      ReversePrefix(s[..|s| - 1], k - 1);
      var t := s[..|s| - 1];
      assert t[|t| - (k - 1)..] == s[|s| - k..|s| - 1];
      assert s[|s| - k..][..k - 1] == s[|s| - k..|s| - 1];
      assert s[|s| - k..][k - 1] == s[|s| - 1];
    }
  }

  /** Whatever the sequence of games, the history holds exactly the last
      (at most ten) results, newest first. */
  lemma {:induction false} HistoryIsLastTenNewestFirst(results: seq<GameResult>)
    ensures var n := if |results| < RecentCapacity then |results| else RecentCapacity;
            History(results) == Reverse(results[|results| - n..])
  {
    if |results| > 0 {
      var prev := results[..|results| - 1];
      var x := results[|results| - 1];
      HistoryIsLastTenNewestFirst(prev);
      var m := if |prev| < RecentCapacity then |prev| else RecentCapacity;
      var n := if |results| < RecentCapacity then |results| else RecentCapacity;
      var h := History(prev);
      ReverseLength(prev[|prev| - m..]);
      assert |h| == m;
      var window := results[|results| - n..];
      assert window[..|window| - 1] == prev[|prev| - (n - 1)..];
      assert window[|window| - 1] == x;
      ReversePrefix(prev[|prev| - m..], n - 1);
      assert prev[|prev| - m..][m - (n - 1)..] == prev[|prev| - (n - 1)..];
    }
  }

  lemma {:induction false} SumBounds(games: seq<GameResult>, lo: real, hi: real)
    requires forall k :: 0 <= k < |games| ==> lo <= games[k].moveEfficiency <= hi
    ensures (|games| as real) * lo <= SumEfficiency(games) <= (|games| as real) * hi
  {
    if |games| > 0 {
      SumBounds(games[..|games| - 1], lo, hi);
    }
  }

  /** The average lies between the smallest and largest efficiency. */
  lemma AverageWithinBounds(games: seq<GameResult>, lo: real, hi: real)
    requires |games| > 0
    requires forall k :: 0 <= k < |games| ==> lo <= games[k].moveEfficiency <= hi
    ensures lo <= AverageEfficiency(games) <= hi
  {
    SumBounds(games, lo, hi);
    var n := |games| as real;
    assert n * lo <= SumEfficiency(games) <= n * hi;
    assert SumEfficiency(games) / n >= lo by {
      assert lo == (n * lo) / n;
    }
    assert SumEfficiency(games) / n <= hi by {
      assert hi == (n * hi) / n;
    }
  }

  /** A better average never lowers the skill level. */
  lemma SkillLevelMonotone(a: real, b: real)
    requires a <= b
    ensures SkillLevel(a) <= SkillLevel(b)
  {
    assert a * 5.0 <= b * 5.0;
  }

  /** A history of perfect games gives the top skill level and Master. */
  lemma PerfectHistoryGivesMaster(player: PlayerStats, result: GameResult)
    requires result.moveEfficiency == 1.0
    requires forall k :: 0 <= k < |player.recentGames| ==> player.recentGames[k].moveEfficiency == 1.0
    ensures UpdatePlayerStats(player, result).skillLevel == MaxSkill
    ensures UpdatePlayerStats(player, result).currentDifficulty == Master
  {
    var r := PushRecent(player.recentGames, result);
    forall k | 0 <= k < |r|
      ensures 1.0 <= r[k].moveEfficiency <= 1.0
    {
      if k > 0 {
        assert r[k] == player.recentGames[k - 1];
      }
    }
    AverageWithinBounds(r, 1.0, 1.0);
  }

  /** Efficiencies 0.9, 0.8 and 0.7 average to 0.8: skill level 4, Expert.
      (In double arithmetic the sum reads 2.4000000000000004 and five times
      the average 4.000000000000001, whose floor is 4 as well.) */
  lemma ThreeGameExample(player: PlayerStats, g1: GameResult, g2: GameResult, g3: GameResult)
    requires player.recentGames == [g2, g3]
    requires g1.moveEfficiency == 0.9 && g2.moveEfficiency == 0.8 && g3.moveEfficiency == 0.7
    ensures AverageEfficiency([g1, g2, g3]) == 0.8
    ensures UpdatePlayerStats(player, g1).skillLevel == 4
    ensures UpdatePlayerStats(player, g1).currentDifficulty == Expert
  {
    var r := [g1, g2, g3];
    assert PushRecent(player.recentGames, g1) == r;
    assert r[..2] == [g1, g2] && [g1, g2][..1] == [g1] && [g1][..0] == [];
    assert SumEfficiency([g1]) == 0.9;
    assert SumEfficiency([g1, g2]) == 1.7;
    assert SumEfficiency(r) == 2.4;
  }
}
