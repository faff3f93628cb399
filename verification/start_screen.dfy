/**
 * The start screen (src/components/SplashScreen.tsx): the form's state and
 * the start button, which refuses a blank name and otherwise hands the
 * chosen settings to the application.
 *
 * Whitespace is what JavaScript's `String.prototype.trim` removes: the
 * white-space and line-terminator code points of ECMAScript.
 */
module StartScreen {
  import opened Wrappers
  import opened GameTypes

  /** ECMAScript WhiteSpace and LineTerminator: tab, line feed, vertical
      tab, form feed, carriage return, space, no-break space, the other
      space separators, line and paragraph separators, and the byte-order
      mark. */
  predicate IsJsSpace(c: char) {
    var u := c as int;
    || u == 0x09 || u == 0x0A || u == 0x0B || u == 0x0C || u == 0x0D
    || u == 0x20 || u == 0xA0 || u == 0x1680
    || (0x2000 <= u <= 0x200A)
    || u == 0x2028 || u == 0x2029 || u == 0x202F || u == 0x205F
    || u == 0x3000 || u == 0xFEFF
  }

  predicate AllSpace(s: string) {
    forall k :: 0 <= k < |s| ==> IsJsSpace(s[k])
  }

  /** The first position at or after i that does not hold whitespace. */
  function SkipSpaces(s: string, i: nat): (r: nat)
    requires i <= |s|
    ensures i <= r <= |s|
    ensures forall k :: i <= k < r ==> IsJsSpace(s[k])
    ensures r < |s| ==> !IsJsSpace(s[r])
    decreases |s| - i
  {
    if i < |s| && IsJsSpace(s[i]) then SkipSpaces(s, i + 1) else i
  }

  /** The end of s[lo..j] once its trailing whitespace is dropped. */
  function BackSpaces(s: string, lo: nat, j: nat): (r: nat)
    requires lo <= j <= |s|
    ensures lo <= r <= j
    ensures forall k :: r <= k < j ==> IsJsSpace(s[k])
    ensures r > lo ==> !IsJsSpace(s[r - 1])
  {
    if j > lo && IsJsSpace(s[j - 1]) then BackSpaces(s, lo, j - 1) else j
  }

  /** r is the piece of s at offset i, and everything around it is
      whitespace. */
  predicate PieceBetweenSpaces(s: string, i: int, r: string) {
    && 0 <= i <= i + |r| <= |s| && r == s[i..i + |r|]
    && (forall k :: 0 <= k < i ==> IsJsSpace(s[k]))
    && (forall k :: i + |r| <= k < |s| ==> IsJsSpace(s[k]))
  }

  /** `s.trim()`: the piece of s left after removing whitespace at both
      ends. It is empty exactly when s is all whitespace, and otherwise
      starts and ends with a character that is not whitespace. */
  function Trim(s: string): (r: string)
    ensures exists i :: PieceBetweenSpaces(s, i, r)
    ensures |r| > 0 ==> !IsJsSpace(r[0]) && !IsJsSpace(r[|r| - 1])
    ensures |r| == 0 <==> AllSpace(s)
  {
    var a := SkipSpaces(s, 0);
    var b := BackSpaces(s, a, |s|);
    assert PieceBetweenSpaces(s, a, s[a..b]);
    assert b - a > 0 ==> s[a..b][0] == s[a] && s[a..b][b - a - 1] == s[b - 1];
    s[a..b]
  }

  /** A string with no whitespace at either end is its own trim. */
  lemma TrimFixesClean(t: string)
    requires |t| > 0 ==> !IsJsSpace(t[0]) && !IsJsSpace(t[|t| - 1])
    ensures Trim(t) == t
  {
    assert SkipSpaces(t, 0) == 0;
    assert BackSpaces(t, 0, |t|) == |t|;
    assert t[0..|t|] == t;
  }

  /** Trimming twice is trimming once. */
  lemma TrimIdempotent(s: string)
    ensures Trim(Trim(s)) == Trim(s)
  {
    TrimFixesClean(Trim(s));
  }

  /** The form: the typed name, the chosen mode and difficulty, and the
      message shown under the name field. */
  datatype StartForm = StartForm(playerName: string, gameMode: GameMode, difficulty: Difficulty, error: string)

  /** The form as first shown. */
  const InitialForm := StartForm("", Arcade, Easy, "")

  const NameMissing := "Please enter your name"

  /** What pressing start yields: the form afterwards and, when the game
      starts, the settings handed over. */
  datatype StartOutcome = StartOutcome(form: StartForm, started: Option<GameSettings>)

  /** `handleStart`: a name that is blank after trimming sets the error
      message and starts nothing; otherwise the game starts with the trimmed
      name, the chosen mode, and the chosen difficulty only in normal mode.
      A successful start leaves the form, including an earlier error
      message, as it was. */
  function HandleStart(form: StartForm): (r: StartOutcome)
    ensures r.started.None? <==> AllSpace(form.playerName)
    ensures r.started.None? ==> r.form == form.(error := NameMissing)
    ensures r.started.Some? ==>
              && r.form == form
              && r.started.value.mode == form.gameMode
              && r.started.value.playerName == Trim(form.playerName)
              && (r.started.value.difficulty.Some? <==> form.gameMode == Normal)
              && (r.started.value.difficulty.Some? ==> r.started.value.difficulty.value == form.difficulty)
  {
    var name := Trim(form.playerName);
    if |name| == 0 then StartOutcome(form.(error := NameMissing), None)
    else
      StartOutcome(form, Some(GameSettings(
        form.gameMode,
        name,
        if form.gameMode == Normal then Some(form.difficulty) else None)))
  }

  /** The name handed over is never blank and carries no surrounding
      whitespace, and typing it back in starts the same game. */
  lemma StartedNameIsClean(form: StartForm)
    requires HandleStart(form).started.Some?
    ensures var name := HandleStart(form).started.value.playerName;
            && |name| > 0 && !IsJsSpace(name[0]) && !IsJsSpace(name[|name| - 1])
            && HandleStart(form.(playerName := name)).started == HandleStart(form).started
  {
    TrimIdempotent(form.playerName);
  }

  /** Pressing start on the untouched form only shows the error. */
  lemma EmptyFormRefused()
    ensures HandleStart(InitialForm) == StartOutcome(InitialForm.(error := NameMissing), None)
  {
  }
}
