/**
 * The leaderboard panel (src/components/Leaderboard.tsx): the heading names
 * the difficulty from its disk count.
 */
module LeaderboardView {
  import opened Wrappers
  import opened GameTypes

  const UnknownDifficulty := "Unknown"

  /** `getDifficultyName`: the difficulty's own name for disk counts 3..7,
      "Unknown" for anything else. */
  function GetDifficultyName(diff: int): (r: string)
    ensures DifficultyOf(diff).Some? ==> r == DifficultyOf(diff).value.Label()
    ensures DifficultyOf(diff).None? ==> r == UnknownDifficulty
  {
    match diff
    case 3 => "Easy"
    case 4 => "Medium"
    case 5 => "Hard"
    case 6 => "Expert"
    case 7 => "Master"
    case _ => "Unknown"
  }

  /** Every difficulty is shown under its own name, and the five names
      differ from each other and from "Unknown", so the heading tells the
      disk count back. */
  lemma DifficultyNamesDistinct(a: int, b: int)
    ensures GetDifficultyName(a) == UnknownDifficulty <==> !(3 <= a <= 7)
    ensures 3 <= a <= 7 && 3 <= b <= 7 ==> (GetDifficultyName(a) == GetDifficultyName(b) <==> a == b)
  {
  }

  /** The name shown for a difficulty's disk count is that difficulty's name. */
  lemma NameOfDifficulty(d: Difficulty)
    ensures GetDifficultyName(d.DiskCount()) == d.Label()
  {
    DifficultyValuesRoundTrip(d);
  }
}
