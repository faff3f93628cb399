/**
 * The hint service (src/services/aiService.ts): the stricter legality rule
 * it applies to suggested moves, the checks on the already-decoded reply
 * object, and the fix-up that replaces the reply's disk with the disk
 * actually on top of the source tower.
 *
 * The request to the completion endpoint and the decoding of its text as
 * JSON are outside the model: the reply arrives as a record of the
 * properties the parser reads.
 */
module Hints {
  import opened Wrappers
  import opened GameTypes
  import Engine

  /** A JSON-decoded value as far as the parser distinguishes it. A property
      the object lacks reads as `JsUndefined`. JSON numbers are finite. */
  datatype JsValue =
    | JsUndefined
    | JsNull
    | JsNumber(n: real)
    | JsString(s: string)
    | JsBool(b: bool)
    | JsObject

  /** The properties of the decoded reply that the parser reads. */
  datatype HintReply = HintReply(
    fromTower: JsValue,
    from: JsValue,
    toTower: JsValue,
    to: JsValue,
    disk: JsValue)

  /** A reply that passed the parser's checks: both indices are numbers in
      0..2 (not necessarily whole) and differ; the disk is carried as read. */
  datatype ParsedMove = ParsedMove(fromTower: real, toTower: real, disk: JsValue)

  /** `a ?? b`: the right operand when the left is `null` or `undefined`. */
  function Coalesce(a: JsValue, b: JsValue): (r: JsValue)
    ensures a != JsNull && a != JsUndefined ==> r == a
    ensures (a == JsNull || a == JsUndefined) ==> r == b
  {
    if a == JsNull || a == JsUndefined then b else a
  }

  /** A tower index the parser accepts: a number with 0 <= x <= 2. */
  predicate InIndexRange(v: JsValue) {
    v.JsNumber? && 0.0 <= v.n <= 2.0
  }

  /** `parseAIResponse` after `JSON.parse`. `None` for the reply stands for
      text that does not decode (or decodes to `null`), which the parser's
      catch turns into `null`. */
  function ParseReply(reply: Option<HintReply>): (r: Option<ParsedMove>)
    ensures r.Some? <==>
              && reply.Some?
              && InIndexRange(Coalesce(reply.value.fromTower, reply.value.from))
              && InIndexRange(Coalesce(reply.value.toTower, reply.value.to))
              && Coalesce(reply.value.fromTower, reply.value.from) != Coalesce(reply.value.toTower, reply.value.to)
    ensures r.Some? ==>
              && 0.0 <= r.value.fromTower <= 2.0
              && 0.0 <= r.value.toTower <= 2.0
              && r.value.fromTower != r.value.toTower
    ensures r.Some? ==>
              r.value == ParsedMove(Coalesce(reply.value.fromTower, reply.value.from).n,
                                    Coalesce(reply.value.toTower, reply.value.to).n,
                                    Coalesce(reply.value.disk, JsNull))
  {
    match reply
    case None => None
    case Some(m) =>
      var fromTower := Coalesce(m.fromTower, m.from);
      var toTower := Coalesce(m.toTower, m.to);
      if && fromTower.JsNumber? && toTower.JsNumber?
         && 0.0 <= fromTower.n <= 2.0
         && 0.0 <= toTower.n <= 2.0
         && fromTower.n != toTower.n
      then Some(ParsedMove(fromTower.n, toTower.n, Coalesce(m.disk, JsNull)))
      else None
  }

  /** The service's own rule: an empty source is refused; otherwise an empty
      target accepts, and a non-empty one accepts a smaller disk. */
  function IsValidHintMove(towers: Towers, from: int, to: int): (r: bool)
    requires IsTowerIndex(from) && IsTowerIndex(to)
    ensures |towers[from]| == 0 ==> !r
    ensures |towers[from]| > 0 && |towers[to]| == 0 ==> r
    ensures |towers[from]| > 0 && |towers[to]| > 0 ==>
              (r <==> LessThan(Top(towers[from]), Top(towers[to])))
  {
    if |towers[from]| == 0 then false
    else
      var movingDisk := Top(towers[from]);
      var targetTower := towers[to];
      if |targetTower| == 0 then true
      else LessThan(movingDisk, Top(targetTower))
  }

  /** Whether a real number is a whole number. */
  predicate IsWhole(x: real) {
    x == x.Floor as real
  }

  /** `getNextMove` once the reply has arrived: the parsed move is checked
      against the caller's towers with the service's own rule and its disk is
      replaced by the source's top disk. A fractional index makes
      `towers[i].length` throw inside the check; the surrounding catch turns
      that into `null` as well. */
  function GetNextMove(towers: Towers, reply: Option<HintReply>): (r: Option<Move>)
    ensures r.Some? ==>
              && IsTowerIndex(r.value.fromTower) && IsTowerIndex(r.value.toTower)
              && r.value.fromTower != r.value.toTower
              && IsValidHintMove(towers, r.value.fromTower, r.value.toTower)
              && r.value.disk == Top(towers[r.value.fromTower])
    ensures ParseReply(reply).None? ==> r.None?
    ensures ParseReply(reply).Some? ==>
              var m := ParseReply(reply).value;
              (r.Some? <==> IsWhole(m.fromTower) && IsWhole(m.toTower)
                            && IsValidHintMove(towers, m.fromTower.Floor, m.toTower.Floor))
    ensures r.Some? ==>
              ParseReply(reply) == Some(ParsedMove(r.value.fromTower as real, r.value.toTower as real,
                                                   ParseReply(reply).value.disk))
  {
    match ParseReply(reply)
    case None => None
    case Some(m) =>
      if !IsWhole(m.fromTower) || !IsWhole(m.toTower) then None
      else
        var from := m.fromTower.Floor;
        var to := m.toTower.Floor;
        if IsValidHintMove(towers, from, to) then Some(Move(from, to, Top(towers[from])))
        else None
  }

  // ---------------------------------------------------------------------
  // Properties
  // ---------------------------------------------------------------------

  /** Over a stacked destination the two rules differ only when both towers
      are empty: there the engine accepts and the service refuses. */
  lemma RulesCompared(towers: Towers, from: int, to: int)
    requires IsTowerIndex(from) && IsTowerIndex(to)
    requires Stacked(towers[to])
    ensures |towers[from]| > 0 ==> (IsValidHintMove(towers, from, to) <==> Engine.IsValidMove(towers, from, to))
    ensures |towers[from]| == 0 ==> !IsValidHintMove(towers, from, to)
    ensures |towers[from]| == 0 ==> (Engine.IsValidMove(towers, from, to) <==> |towers[to]| == 0)
    ensures (IsValidHintMove(towers, from, to) != Engine.IsValidMove(towers, from, to)) <==>
              |towers[from]| == 0 && |towers[to]| == 0
  {
  }

  /** A destination topped by `undefined` (left by a move out of an empty
      tower) splits the rules again: the engine accepts every move onto it,
      the service refuses every one. */
  lemma UndefinedTopSplitsRules(towers: Towers, from: int, to: int)
    requires IsTowerIndex(from) && IsTowerIndex(to)
    requires |towers[to]| > 0 && Top(towers[to]) == Undefined
    ensures Engine.IsValidMove(towers, from, to)
    ensures !IsValidHintMove(towers, from, to)
  {
  }

  /** Every move the service accepts is also accepted by the engine, on any
      board; so a returned hint can always be played. */
  lemma HintRuleImpliesEngineRule(towers: Towers, from: int, to: int)
    requires IsTowerIndex(from) && IsTowerIndex(to)
    requires IsValidHintMove(towers, from, to)
    ensures Engine.IsValidMove(towers, from, to)
  {
  }

  /** A returned hint, played through the engine, moves its own disk from its
      source to its target and keeps a stacked board stacked. */
  lemma ReturnedHintIsPlayable(g: GameState, reply: Option<HintReply>, diskCount: int)
    requires AllStacked(g.towers)
    requires GetNextMove(g.towers, reply).Some?
    ensures var m := GetNextMove(g.towers, reply).value;
            var r := Engine.MoveDisk(g, m.fromTower, m.toTower, diskCount);
            && r.moves == g.moves + 1
            && r.towers[m.toTower] == g.towers[m.toTower] + [m.disk]
            && AllStacked(r.towers)
            && AllDisks(r.towers) == AllDisks(g.towers)
  {
    var m := GetNextMove(g.towers, reply).value;
    HintRuleImpliesEngineRule(g.towers, m.fromTower, m.toTower);
    Engine.MovePreservesStacking(g, m.fromTower, m.toTower, diskCount);
  }

  /** The short property names are used when the long ones are absent or null. */
  lemma ShortNamesAreFallback(from: real, to: real, disk: JsValue)
    requires 0.0 <= from <= 2.0 && 0.0 <= to <= 2.0 && from != to
    ensures ParseReply(Some(HintReply(JsUndefined, JsNumber(from), JsNull, JsNumber(to), disk)))
            == Some(ParsedMove(from, to, Coalesce(disk, JsNull)))
  {
  }

  /** A fractional index passes the parser but never yields a hint. */
  lemma FractionalIndexYieldsNoHint(towers: Towers)
    ensures ParseReply(Some(HintReply(JsNumber(1.5), JsUndefined, JsNumber(2.0), JsUndefined, JsUndefined))).Some?
    ensures GetNextMove(towers, Some(HintReply(JsNumber(1.5), JsUndefined, JsNumber(2.0), JsUndefined, JsUndefined))).None?
  {
    assert !IsWhole(1.5);
  }
}
