/**
 * The leaderboard arithmetic of `getLeaderboard` (src/services/gameService.ts):
 * one best result per player, ranked by (moves, time), cut to a limit.
 *
 * The query that fetches the results is outside the model; the fetched list
 * is the input. The players' best results leave the grouping object in the
 * order their names were first seen, and the array sort is stable.
 */
module Ranking {
  import opened Wrappers
  import opened GameTypes

  /** The leaderboard length used when the caller gives none. */
  const DefaultLimit := 10

  /** Strictly better rank: fewer moves, or as many moves in less time. */
  predicate Better(a: LeaderboardEntry, b: LeaderboardEntry) {
    || a.result.moves < b.result.moves
    || (a.result.moves == b.result.moves && a.result.time < b.result.time)
  }

  /** The entry ranks on exactly (moves, time). */
  predicate HasKey(e: LeaderboardEntry, moves: int, time: int) {
    e.result.moves == moves && e.result.time == time
  }

  // ---------------------------------------------------------------------
  // One best result per player
  // ---------------------------------------------------------------------

  predicate HasPlayer(s: seq<LeaderboardEntry>, name: string) {
    exists k :: 0 <= k < |s| && s[k].playerName == name
  }

  predicate DistinctPlayers(s: seq<LeaderboardEntry>) {
    forall i, j :: 0 <= i < j < |s| ==> s[i].playerName != s[j].playerName
  }

  /** `rs[i]` is its player's first best result: strictly better than every
      earlier result of that player and no worse than every later one. */
  predicate FirstBestAt(rs: seq<LeaderboardEntry>, i: int) {
    && 0 <= i < |rs|
    && forall j :: 0 <= j < |rs| && rs[j].playerName == rs[i].playerName ==>
         (j < i ==> Better(rs[i], rs[j])) && (i < j ==> !Better(rs[j], rs[i]))
  }

  /** Where a player's entry sits in the grouping, if anywhere. */
  function FindPlayer(acc: seq<LeaderboardEntry>, name: string): (r: Option<nat>)
    ensures r.Some? ==> r.value < |acc| && acc[r.value].playerName == name
    ensures r.None? <==> !HasPlayer(acc, name)
  {
    if |acc| == 0 then None
    else if acc[0].playerName == name then Some(0)
    else match FindPlayer(acc[1..], name)
      case None =>
        assert forall k :: 1 <= k < |acc| ==> acc[k] == acc[1..][k - 1];
        None
      case Some(k) => Some(k + 1)
  }

  /** One step of the grouping reduction: a new player is added at the end;
      a known player's entry is replaced only by a strictly better result. */
  function KeepBest(acc: seq<LeaderboardEntry>, r: LeaderboardEntry): seq<LeaderboardEntry> {
    match FindPlayer(acc, r.playerName)
    case None => acc + [r]
    case Some(k) => if Better(r, acc[k]) then acc[k := r] else acc
  }

  /** The grouping reduction over the fetched results, in order. */
  function BestPerPlayer(rs: seq<LeaderboardEntry>): seq<LeaderboardEntry> {
    if |rs| == 0 then [] else KeepBest(BestPerPlayer(rs[..|rs| - 1]), rs[|rs| - 1])
  }

  /** Where the player's first result sits in rs, or |rs| when the player
      has none: the order in which the grouping object first sees names. */
  function FirstSeen(rs: seq<LeaderboardEntry>, name: string): (r: nat)
    ensures r <= |rs|
    ensures r < |rs| ==> rs[r].playerName == name
    ensures forall j :: 0 <= j < r ==> rs[j].playerName != name
  {
    if |rs| == 0 then 0
    else if rs[0].playerName == name then 0
    else
      var r := 1 + FirstSeen(rs[1..], name);
      assert forall j :: 1 <= j < |rs| ==> rs[j] == rs[1..][j - 1];
      r
  }

  /** The entries of acc are listed in the order their players were first
      seen in rs. */
  predicate InFirstSeenOrder(rs: seq<LeaderboardEntry>, acc: seq<LeaderboardEntry>) {
    forall i, j :: 0 <= i < j < |acc| ==> FirstSeen(rs, acc[i].playerName) < FirstSeen(rs, acc[j].playerName)
  }

  /** e is some player's first best result in rs. */
  ghost predicate KeptFirstBest(rs: seq<LeaderboardEntry>, e: LeaderboardEntry) {
    exists i :: FirstBestAt(rs, i) && rs[i] == e
  }

  /** What the grouping of rs maintains in acc. */
  ghost predicate Grouping(rs: seq<LeaderboardEntry>, acc: seq<LeaderboardEntry>) {
    && DistinctPlayers(acc)
    && (forall j :: 0 <= j < |rs| ==> HasPlayer(acc, rs[j].playerName))
    && (forall k :: 0 <= k < |acc| ==> HasPlayer(rs, acc[k].playerName))
    && (forall k :: 0 <= k < |acc| ==> KeptFirstBest(rs, acc[k]))
  }

  /** A first best result stays first best when a result follows that is
      another player's or no better. */
  lemma FirstBestExtends(rs: seq<LeaderboardEntry>, i: int, x: LeaderboardEntry)
    requires FirstBestAt(rs, i)
    requires x.playerName != rs[i].playerName || !Better(x, rs[i])
    ensures FirstBestAt(rs + [x], i)
  {
    var rs' := rs + [x];
    forall j | 0 <= j < |rs'| && rs'[j].playerName == rs'[i].playerName
      ensures (j < i ==> Better(rs'[i], rs'[j])) && (i < j ==> !Better(rs'[j], rs'[i]))
    {
      if j < |rs| {
        assert rs'[j] == rs[j];
      }
    }
  }

  /** A result strictly better than all earlier results of its player is
      that player's first best result. */
  lemma FirstBestAtEnd(rs: seq<LeaderboardEntry>, x: LeaderboardEntry)
    requires forall j :: 0 <= j < |rs| && rs[j].playerName == x.playerName ==> Better(x, rs[j])
    ensures FirstBestAt(rs + [x], |rs|)
  {
    var rs' := rs + [x];
    forall j | 0 <= j < |rs'| && rs'[j].playerName == rs'[|rs|].playerName && j < |rs|
      ensures Better(rs'[|rs|], rs'[j])
    {
      assert rs'[j] == rs[j];
    }
  }

  lemma KeptExtends(rs: seq<LeaderboardEntry>, e: LeaderboardEntry, x: LeaderboardEntry)
    requires KeptFirstBest(rs, e)
    requires x.playerName != e.playerName || !Better(x, e)
    ensures KeptFirstBest(rs + [x], e)
  {
    var i :| FirstBestAt(rs, i) && rs[i] == e;
    FirstBestExtends(rs, i, x);
    assert (rs + [x])[i] == e;
  }

  /** A result of a player not seen before is added at the end. */
  lemma GroupingStepNew(rs: seq<LeaderboardEntry>, acc: seq<LeaderboardEntry>, x: LeaderboardEntry)
    requires Grouping(rs, acc)
    requires !HasPlayer(acc, x.playerName)
    ensures Grouping(rs + [x], acc + [x])
  {
    var rs', acc' := rs + [x], acc + [x];
    forall j | 0 <= j < |rs|
      ensures rs[j].playerName != x.playerName
    {
      assert HasPlayer(acc, rs[j].playerName);
    }
    FirstBestAtEnd(rs, x);
    forall k | 0 <= k < |acc'|
      ensures KeptFirstBest(rs', acc'[k])
    {
      if k < |acc| {
        assert acc[k].playerName != x.playerName;
        KeptExtends(rs, acc[k], x);
      } else {
        assert rs'[|rs|] == acc'[k];
      }
    }
    forall j | 0 <= j < |rs'|
      ensures HasPlayer(acc', rs'[j].playerName)
    {
      if j < |rs| {
        var k :| 0 <= k < |acc| && acc[k].playerName == rs[j].playerName;
        assert acc'[k].playerName == rs'[j].playerName;
      } else {
        assert acc'[|acc|].playerName == rs'[j].playerName;
      }
    }
    forall k | 0 <= k < |acc'|
      ensures HasPlayer(rs', acc'[k].playerName)
    {
      if k < |acc| {
        var j :| 0 <= j < |rs| && rs[j].playerName == acc[k].playerName;
        assert rs'[j].playerName == acc'[k].playerName;
      } else {
        assert rs'[|rs|].playerName == acc'[k].playerName;
      }
    }
  }

  /** A result strictly better than a player's first best result is
      strictly better than all of that player's results. */
  lemma BetterThanFirstBest(rs: seq<LeaderboardEntry>, i: int, x: LeaderboardEntry)
    requires FirstBestAt(rs, i) && rs[i].playerName == x.playerName && Better(x, rs[i])
    ensures forall j :: 0 <= j < |rs| && rs[j].playerName == x.playerName ==> Better(x, rs[j])
  {
  }

  /** Replacing a player's entry by another result of the same player keeps
      the grouping's set of players. */
  lemma ReplaceKeepsPlayers(rs: seq<LeaderboardEntry>, acc: seq<LeaderboardEntry>, x: LeaderboardEntry, p: nat)
    requires DistinctPlayers(acc)
    requires forall j :: 0 <= j < |rs| ==> HasPlayer(acc, rs[j].playerName)
    requires forall k :: 0 <= k < |acc| ==> HasPlayer(rs, acc[k].playerName)
    requires p < |acc| && acc[p].playerName == x.playerName
    ensures var rs', acc' := rs + [x], acc[p := x];
            && DistinctPlayers(acc')
            && (forall j :: 0 <= j < |rs'| ==> HasPlayer(acc', rs'[j].playerName))
            && (forall k :: 0 <= k < |acc'| ==> HasPlayer(rs', acc'[k].playerName))
  {
    var rs', acc' := rs + [x], acc[p := x];
    forall j | 0 <= j < |rs'|
      ensures HasPlayer(acc', rs'[j].playerName)
    {
      if j < |rs| {
        var k :| 0 <= k < |acc| && acc[k].playerName == rs[j].playerName;
        assert acc'[k].playerName == rs'[j].playerName;
      } else {
        assert acc'[p].playerName == rs'[j].playerName;
      }
    }
    forall k | 0 <= k < |acc'|
      ensures HasPlayer(rs', acc'[k].playerName)
    {
      var j :| 0 <= j < |rs| && rs[j].playerName == acc[k].playerName;
      assert rs'[j].playerName == acc'[k].playerName;
    }
  }

  /** A strictly better result of a known player replaces that player's entry. */
  lemma GroupingStepReplace(rs: seq<LeaderboardEntry>, acc: seq<LeaderboardEntry>, x: LeaderboardEntry, p: nat)
    requires Grouping(rs, acc)
    requires p < |acc| && acc[p].playerName == x.playerName && Better(x, acc[p])
    ensures Grouping(rs + [x], acc[p := x])
  {
    var rs', acc' := rs + [x], acc[p := x];
    var i :| FirstBestAt(rs, i) && rs[i] == acc[p];
    BetterThanFirstBest(rs, i, x);
    FirstBestAtEnd(rs, x);
    forall k | 0 <= k < |acc'|
      ensures KeptFirstBest(rs', acc'[k])
    {
      if k != p {
        assert acc[k].playerName != x.playerName;
        KeptExtends(rs, acc[k], x);
      } else {
        assert rs'[|rs|] == acc'[k];
      }
    }
    ReplaceKeepsPlayers(rs, acc, x, p);
  }

  /** A result no better than its player's entry leaves the grouping as it is. */
  lemma GroupingStepKeep(rs: seq<LeaderboardEntry>, acc: seq<LeaderboardEntry>, x: LeaderboardEntry, p: nat)
    requires Grouping(rs, acc)
    requires p < |acc| && acc[p].playerName == x.playerName && !Better(x, acc[p])
    ensures Grouping(rs + [x], acc)
  {
    var rs' := rs + [x];
    forall k | 0 <= k < |acc|
      ensures KeptFirstBest(rs', acc[k])
    {
      KeptExtends(rs, acc[k], x);
    }
    forall j | 0 <= j < |rs'|
      ensures HasPlayer(acc, rs'[j].playerName)
    {
      if j < |rs| {
        assert rs'[j] == rs[j];
      }
    }
    forall k | 0 <= k < |acc|
      ensures HasPlayer(rs', acc[k].playerName)
    {
      var j :| 0 <= j < |rs| && rs[j].playerName == acc[k].playerName;
      assert rs'[j].playerName == acc[k].playerName;
    }
  }

  /** One reduction step keeps the grouping invariant. */
  lemma GroupingStep(rs: seq<LeaderboardEntry>, acc: seq<LeaderboardEntry>, x: LeaderboardEntry)
    requires Grouping(rs, acc)
    ensures Grouping(rs + [x], KeepBest(acc, x))
  {
    match FindPlayer(acc, x.playerName)
    case None =>
      GroupingStepNew(rs, acc, x);
    case Some(p) =>
      if Better(x, acc[p]) {
        GroupingStepReplace(rs, acc, x, p);
      } else {
        GroupingStepKeep(rs, acc, x, p);
      }
  }

  /** A player with a result at k was first seen no later than k. */
  lemma FirstSeenFound(rs: seq<LeaderboardEntry>, name: string, k: int)
    requires 0 <= k < |rs| && rs[k].playerName == name
    ensures FirstSeen(rs, name) <= k < |rs|
  {
  }

  /** A later result does not change where a known player was first seen. */
  lemma FirstSeenAppend(rs: seq<LeaderboardEntry>, x: LeaderboardEntry, name: string)
    requires HasPlayer(rs, name)
    ensures FirstSeen(rs + [x], name) == FirstSeen(rs, name) < |rs|
  {
    var k :| 0 <= k < |rs| && rs[k].playerName == name;
    FirstSeenFound(rs, name, k);
    var a := FirstSeen(rs, name);
    assert (rs + [x])[a] == rs[a];
    assert forall j :: 0 <= j < a ==> (rs + [x])[j] == rs[j];
  }

  /** A player with no earlier result is first seen at the new result. */
  lemma FirstSeenNew(rs: seq<LeaderboardEntry>, x: LeaderboardEntry)
    requires !HasPlayer(rs, x.playerName)
    ensures FirstSeen(rs + [x], x.playerName) == |rs|
  {
    assert (rs + [x])[|rs|] == x;
    assert forall j :: 0 <= j < |rs| ==> (rs + [x])[j] == rs[j];
  }

  /** Players with results keep their first-seen positions when a result follows. */
  lemma FirstSeenKept(rs: seq<LeaderboardEntry>, acc: seq<LeaderboardEntry>, x: LeaderboardEntry)
    requires forall k :: 0 <= k < |acc| ==> HasPlayer(rs, acc[k].playerName)
    ensures forall k :: 0 <= k < |acc| ==>
              FirstSeen(rs + [x], acc[k].playerName) == FirstSeen(rs, acc[k].playerName) < |rs|
  {
    forall k | 0 <= k < |acc|
      ensures FirstSeen(rs + [x], acc[k].playerName) == FirstSeen(rs, acc[k].playerName) < |rs|
    {
      FirstSeenAppend(rs, x, acc[k].playerName);
    }
  }

  /** A player seen for the first time goes after all the others. */
  lemma FirstSeenOrderNew(rs: seq<LeaderboardEntry>, acc: seq<LeaderboardEntry>, x: LeaderboardEntry)
    requires forall k :: 0 <= k < |acc| ==> HasPlayer(rs, acc[k].playerName)
    requires !HasPlayer(rs, x.playerName)
    requires InFirstSeenOrder(rs, acc)
    ensures InFirstSeenOrder(rs + [x], acc + [x])
  {
    var rs', acc' := rs + [x], acc + [x];
    FirstSeenKept(rs, acc, x);
    FirstSeenNew(rs, x);
    forall i, j | 0 <= i < j < |acc'|
      ensures FirstSeen(rs', acc'[i].playerName) < FirstSeen(rs', acc'[j].playerName)
    {
      assert acc'[i] == acc[i];
      if j < |acc| {
        assert acc'[j] == acc[j];
      }
    }
  }

  /** Replacing entries by results of the same players keeps the order. */
  lemma FirstSeenOrderSameNames(rs: seq<LeaderboardEntry>, acc: seq<LeaderboardEntry>, acc': seq<LeaderboardEntry>, x: LeaderboardEntry)
    requires forall k :: 0 <= k < |acc| ==> HasPlayer(rs, acc[k].playerName)
    requires |acc'| == |acc| && forall k :: 0 <= k < |acc| ==> acc'[k].playerName == acc[k].playerName
    requires InFirstSeenOrder(rs, acc)
    ensures InFirstSeenOrder(rs + [x], acc')
  {
    FirstSeenKept(rs, acc, x);
  }

  /** One reduction step keeps the entries in first-seen order: a new player
      goes last, and replacing an entry keeps its player and its place. */
  lemma FirstSeenOrderStep(rs: seq<LeaderboardEntry>, acc: seq<LeaderboardEntry>, x: LeaderboardEntry)
    requires Grouping(rs, acc) && InFirstSeenOrder(rs, acc)
    ensures InFirstSeenOrder(rs + [x], KeepBest(acc, x))
  {
    match FindPlayer(acc, x.playerName)
    case None =>
      forall j | 0 <= j < |rs|
        ensures rs[j].playerName != x.playerName
      {
        assert HasPlayer(acc, rs[j].playerName);
      }
      FirstSeenOrderNew(rs, acc, x);
    case Some(p) =>
      var acc' := KeepBest(acc, x);
      assert forall k :: 0 <= k < |acc| ==> acc'[k].playerName == acc[k].playerName;
      FirstSeenOrderSameNames(rs, acc, acc', x);
  }

  /** The grouping keeps one entry per player, for exactly the players that
      have results, and each kept entry is that player's first best result:
      strictly better than the player's earlier results and no worse than
      the later ones. */
  lemma {:induction false} BestPerPlayerSpec(rs: seq<LeaderboardEntry>)
    ensures Grouping(rs, BestPerPlayer(rs))
  {
    if |rs| > 0 {
      var prev := rs[..|rs| - 1];
      var x := rs[|rs| - 1];
      assert rs == prev + [x];
      BestPerPlayerSpec(prev);
      GroupingStep(prev, BestPerPlayer(prev), x);
    }
  }

  /** The grouping lists its entries in the order their players' first
      results appear. */
  lemma {:induction false} BestPerPlayerOrder(rs: seq<LeaderboardEntry>)
    ensures InFirstSeenOrder(rs, BestPerPlayer(rs))
  {
    if |rs| > 0 {
      var prev := rs[..|rs| - 1];
      var x := rs[|rs| - 1];
      assert rs == prev + [x];
      BestPerPlayerOrder(prev);
      BestPerPlayerSpec(prev);
      FirstSeenOrderStep(prev, BestPerPlayer(prev), x);
    }
  }

  // ---------------------------------------------------------------------
  // Stable sort by (moves, time)
  // ---------------------------------------------------------------------

  predicate SortedByRank(s: seq<LeaderboardEntry>) {
    forall i, j :: 0 <= i < j < |s| ==> !Better(s[j], s[i])
  }

  /** The entries of s that rank on exactly (moves, time), in their order in s. */
  function WithKey(s: seq<LeaderboardEntry>, moves: int, time: int): seq<LeaderboardEntry> {
    if |s| == 0 then []
    else (if HasKey(s[0], moves, time) then [s[0]] else []) + WithKey(s[1..], moves, time)
  }

  /** Insert x behind every entry that it does not strictly beat. */
  function Insert(x: LeaderboardEntry, s: seq<LeaderboardEntry>): seq<LeaderboardEntry> {
    if |s| == 0 then [x]
    else if Better(x, s[0]) then [x] + s
    else [s[0]] + Insert(x, s[1..])
  }

  /** The comparator sort: insertion of each entry, in input order. */
  function SortByRank(s: seq<LeaderboardEntry>): seq<LeaderboardEntry> {
    if |s| == 0 then [] else Insert(s[|s| - 1], SortByRank(s[..|s| - 1]))
  }

  /** A sorted list stays sorted under a new head that nothing in it beats. */
  lemma SortedCons(h: LeaderboardEntry, t: seq<LeaderboardEntry>)
    requires SortedByRank(t)
    requires forall k :: 0 <= k < |t| ==> !Better(t[k], h)
    ensures SortedByRank([h] + t)
  {
    var s := [h] + t;
    forall i, j | 0 <= i < j < |s|
      ensures !Better(s[j], s[i])
    {
      assert s[j] == t[j - 1];
      if i > 0 {
        assert s[i] == t[i - 1];
      }
    }
  }

  lemma {:induction false} InsertMultiset(x: LeaderboardEntry, s: seq<LeaderboardEntry>)
    ensures multiset(Insert(x, s)) == multiset(s) + multiset{x}
  {
    if |s| > 0 && !Better(x, s[0]) {
      InsertMultiset(x, s[1..]);
      assert s == [s[0]] + s[1..];
    }
  }

  lemma {:induction false} InsertSorted(x: LeaderboardEntry, s: seq<LeaderboardEntry>)
    requires SortedByRank(s)
    ensures SortedByRank(Insert(x, s))
  {
    if |s| == 0 {
      assert Insert(x, s) == [x];
    } else if Better(x, s[0]) {
      SortedCons(x, s);
    } else {
      var tail := s[1..];
      assert SortedByRank(tail) by {
        forall i, j | 0 <= i < j < |tail| ensures !Better(tail[j], tail[i]) {
          assert tail[j] == s[j + 1] && tail[i] == s[i + 1];
        }
      }
      InsertSorted(x, tail);
      InsertNames(x, tail);
      var t := Insert(x, tail);
      forall k | 0 <= k < |t|
        ensures !Better(t[k], s[0])
      {
        if t[k] != x {
          var q :| 0 <= q < |tail| && tail[q] == t[k];
          assert s[q + 1] == t[k];
        }
      }
      SortedCons(s[0], t);
    }
  }

  lemma {:induction false} WithKeyConcat(a: seq<LeaderboardEntry>, b: seq<LeaderboardEntry>, moves: int, time: int)
    ensures WithKey(a + b, moves, time) == WithKey(a, moves, time) + WithKey(b, moves, time)
  {
    if |a| > 0 {
      WithKeyConcat(a[1..], b, moves, time);
      assert (a + b)[1..] == a[1..] + b;
      assert (a + b)[0] == a[0];
    } else {
      assert a + b == b;
    }
  }

  /** In a sorted list headed by an entry that x strictly beats, nothing ties with x. */
  lemma {:induction false} NoTieBehindWorse(x: LeaderboardEntry, s: seq<LeaderboardEntry>)
    requires SortedByRank(s) && |s| > 0 && Better(x, s[0])
    ensures WithKey(s, x.result.moves, x.result.time) == []
  {
    if |s| > 1 {
      assert !Better(s[1], s[0]);
      NoTieBehindWorse(x, s[1..]);
    }
  }

  lemma InsertStableFront(x: LeaderboardEntry, s: seq<LeaderboardEntry>, moves: int, time: int)
    requires SortedByRank(s) && |s| > 0 && Better(x, s[0])
    ensures WithKey([x] + s, moves, time) ==
            WithKey(s, moves, time) + (if HasKey(x, moves, time) then [x] else [])
  {
    WithKeyConcat([x], s, moves, time);
    assert WithKey([x], moves, time) == if HasKey(x, moves, time) then [x] else [];
    if HasKey(x, moves, time) {
      NoTieBehindWorse(x, s);
    }
  }

  lemma {:induction false} InsertStable(x: LeaderboardEntry, s: seq<LeaderboardEntry>, moves: int, time: int)
    requires SortedByRank(s)
    ensures WithKey(Insert(x, s), moves, time) ==
            WithKey(s, moves, time) + (if HasKey(x, moves, time) then [x] else [])
  {
    if |s| == 0 {
      assert Insert(x, s) == [x];
    } else if Better(x, s[0]) {
      InsertStableFront(x, s, moves, time);
    } else {
      var tail := s[1..];
      var head := if HasKey(s[0], moves, time) then [s[0]] else [];
      InsertStable(x, tail, moves, time);
      assert Insert(x, s) == [s[0]] + Insert(x, tail);
      assert WithKey(Insert(x, s), moves, time) == head + WithKey(Insert(x, tail), moves, time);
      assert WithKey(s, moves, time) == head + WithKey(tail, moves, time);
    }
  }

  lemma {:induction false} SortByRankOrdered(s: seq<LeaderboardEntry>)
    ensures SortedByRank(SortByRank(s))
    ensures multiset(SortByRank(s)) == multiset(s)
  {
    if |s| > 0 {
      var prev := s[..|s| - 1];
      var x := s[|s| - 1];
      SortByRankOrdered(prev);
      InsertSorted(x, SortByRank(prev));
      InsertMultiset(x, SortByRank(prev));
      assert s == prev + [x];
    }
  }

  lemma {:induction false} SortByRankStable(s: seq<LeaderboardEntry>, moves: int, time: int)
    ensures WithKey(SortByRank(s), moves, time) == WithKey(s, moves, time)
  {
    if |s| > 0 {
      var prev := s[..|s| - 1];
      var x := s[|s| - 1];
      assert s == prev + [x];
      assert SortByRank(s) == Insert(x, SortByRank(prev));
      SortByRankStable(prev, moves, time);
      SortByRankOrdered(prev);
      InsertStable(x, SortByRank(prev), moves, time);
      WithKeyConcat(prev, [x], moves, time);
      assert WithKey([x], moves, time) == if HasKey(x, moves, time) then [x] else [];
    }
  }

  /** The sort returns a permutation of its input, in rank order, and keeps
      the input order among entries with equal (moves, time). */
  lemma SortByRankSpec(s: seq<LeaderboardEntry>)
    ensures SortedByRank(SortByRank(s))
    ensures multiset(SortByRank(s)) == multiset(s)
    ensures forall moves, time :: WithKey(SortByRank(s), moves, time) == WithKey(s, moves, time)
  {
    SortByRankOrdered(s);
    forall moves, time
      ensures WithKey(SortByRank(s), moves, time) == WithKey(s, moves, time)
    {
      SortByRankStable(s, moves, time);
    }
  }

  /** a and b rank on the same (moves, time). */
  predicate Tied(a: LeaderboardEntry, b: LeaderboardEntry) {
    HasKey(b, a.result.moves, a.result.time)
  }

  /** Among entries tied on (moves, time), the one whose player was seen
      first in rs comes first. */
  predicate TiesInFirstSeenOrder(rs: seq<LeaderboardEntry>, s: seq<LeaderboardEntry>) {
    forall i, j :: 0 <= i < j < |s| && Tied(s[i], s[j]) ==>
      FirstSeen(rs, s[i].playerName) < FirstSeen(rs, s[j].playerName)
  }

  /** Tie order survives dropping the head. */
  lemma TiesInFirstSeenOrderTail(rs: seq<LeaderboardEntry>, s: seq<LeaderboardEntry>)
    requires |s| > 0 && TiesInFirstSeenOrder(rs, s) && SortedByRank(s)
    ensures TiesInFirstSeenOrder(rs, s[1..]) && SortedByRank(s[1..])
  {
    var t := s[1..];
    forall i, j | 0 <= i < j < |t|
      ensures !Better(t[j], t[i])
      ensures Tied(t[i], t[j]) ==> FirstSeen(rs, t[i].playerName) < FirstSeen(rs, t[j].playerName)
    {
      assert t[i] == s[i + 1] && t[j] == s[j + 1];
    }
  }

  /** A head that ties only with entries of players seen after its own
      keeps tie order. */
  lemma ConsTieOrder(rs: seq<LeaderboardEntry>, h: LeaderboardEntry, u: seq<LeaderboardEntry>)
    requires TiesInFirstSeenOrder(rs, u)
    requires forall k :: 0 <= k < |u| && Tied(h, u[k]) ==> FirstSeen(rs, h.playerName) < FirstSeen(rs, u[k].playerName)
    ensures TiesInFirstSeenOrder(rs, [h] + u)
  {
    var t := [h] + u;
    forall i, j | 0 <= i < j < |t| && Tied(t[i], t[j])
      ensures FirstSeen(rs, t[i].playerName) < FirstSeen(rs, t[j].playerName)
    {
      assert t[j] == u[j - 1];
      if i > 0 {
        assert t[i] == u[i - 1];
      }
    }
  }

  /** An entry inserted into a sorted list goes behind every entry it ties
      with; if its player was seen after all of theirs, tie order is kept. */
  lemma {:induction false} InsertTieOrder(rs: seq<LeaderboardEntry>, x: LeaderboardEntry, s: seq<LeaderboardEntry>)
    requires SortedByRank(s) && TiesInFirstSeenOrder(rs, s)
    requires forall k :: 0 <= k < |s| ==> FirstSeen(rs, s[k].playerName) < FirstSeen(rs, x.playerName)
    ensures TiesInFirstSeenOrder(rs, Insert(x, s))
  {
    if |s| == 0 {
      assert Insert(x, s) == [x];
    } else if Better(x, s[0]) {
      forall k | 0 <= k < |s|
        ensures !Tied(x, s[k])
      {
        assert k == 0 || !Better(s[k], s[0]);
      }
      ConsTieOrder(rs, x, s);
    } else {
      var tail := s[1..];
      TiesInFirstSeenOrderTail(rs, s);
      forall k | 0 <= k < |tail|
        ensures FirstSeen(rs, tail[k].playerName) < FirstSeen(rs, x.playerName)
      {
        assert tail[k] == s[k + 1];
      }
      InsertTieOrder(rs, x, tail);
      InsertNames(x, tail);
      var u := Insert(x, tail);
      forall k | 0 <= k < |u| && Tied(s[0], u[k])
        ensures FirstSeen(rs, s[0].playerName) < FirstSeen(rs, u[k].playerName)
      {
        if u[k] != x {
          var q :| 0 <= q < |tail| && tail[q] == u[k];
          assert s[q + 1] == u[k];
        }
      }
      ConsTieOrder(rs, s[0], u);
    }
  }

  /** Sorting a list kept in first-seen order leaves tied entries in
      first-seen order. */
  lemma {:induction false} SortByRankTieOrder(rs: seq<LeaderboardEntry>, s: seq<LeaderboardEntry>)
    requires InFirstSeenOrder(rs, s)
    ensures TiesInFirstSeenOrder(rs, SortByRank(s))
  {
    if |s| > 0 {
      var prev := s[..|s| - 1];
      var x := s[|s| - 1];
      assert InFirstSeenOrder(rs, prev) by {
        forall i, j | 0 <= i < j < |prev|
          ensures FirstSeen(rs, prev[i].playerName) < FirstSeen(rs, prev[j].playerName)
        {
          assert prev[i] == s[i] && prev[j] == s[j];
        }
      }
      SortByRankTieOrder(rs, prev);
      SortByRankOrdered(prev);
      SortByRankMembers(prev);
      var t := SortByRank(prev);
      forall k | 0 <= k < |t|
        ensures FirstSeen(rs, t[k].playerName) < FirstSeen(rs, x.playerName)
      {
        var q :| 0 <= q < |prev| && prev[q] == t[k];
        assert s[q] == t[k];
      }
      InsertTieOrder(rs, x, t);
    }
  }

  // ---------------------------------------------------------------------
  // Cut and compose
  // ---------------------------------------------------------------------

  /** `s.slice(0, end)`: a negative end counts back from the length. */
  function SlicePrefix(s: seq<LeaderboardEntry>, end: int): (r: seq<LeaderboardEntry>)
    ensures |r| <= |s| && r == s[..|r|]
    ensures end >= 0 ==> |r| == if end < |s| then end else |s|
    ensures end < 0 ==> |r| == if |s| + end > 0 then |s| + end else 0
  {
    var stop := if end < 0 then (if |s| + end > 0 then |s| + end else 0)
                else if end < |s| then end else |s|;
    s[..stop]
  }

  /** `getLeaderboard` on the fetched results. */
  function GetLeaderboard(rs: seq<LeaderboardEntry>, limitCount: int): seq<LeaderboardEntry> {
    SlicePrefix(SortByRank(BestPerPlayer(rs)), limitCount)
  }

  lemma {:induction false} InsertDistinct(x: LeaderboardEntry, s: seq<LeaderboardEntry>)
    requires DistinctPlayers(s)
    requires forall k :: 0 <= k < |s| ==> s[k].playerName != x.playerName
    ensures DistinctPlayers(Insert(x, s))
  {
    if |s| > 0 && !Better(x, s[0]) {
      InsertDistinct(x, s[1..]);
      var t := Insert(x, s[1..]);
      InsertNames(x, s[1..]);
      forall k | 0 <= k < |t|
        ensures t[k].playerName != s[0].playerName
      {
        if t[k] != x {
          var q :| 0 <= q < |s[1..]| && s[1..][q] == t[k];
          assert s[q + 1] == t[k];
        }
      }
    }
  }

  /** Every entry of Insert(x, s) is x or an entry of s. */
  lemma {:induction false} InsertNames(x: LeaderboardEntry, s: seq<LeaderboardEntry>)
    ensures forall k :: 0 <= k < |Insert(x, s)| ==>
              Insert(x, s)[k] == x || exists q :: 0 <= q < |s| && s[q] == Insert(x, s)[k]
  {
    if |s| > 0 && !Better(x, s[0]) {
      InsertNames(x, s[1..]);
      var t := Insert(x, s[1..]);
      forall k | 0 <= k < |Insert(x, s)|
        ensures Insert(x, s)[k] == x || exists q :: 0 <= q < |s| && s[q] == Insert(x, s)[k]
      {
        if k == 0 {
          assert s[0] == Insert(x, s)[k];
        } else if t[k - 1] != x {
          var q :| 0 <= q < |s[1..]| && s[1..][q] == t[k - 1];
          assert s[q + 1] == Insert(x, s)[k];
        }
      }
    } else if |s| > 0 {
      forall k | 1 <= k < |Insert(x, s)|
        ensures s[k - 1] == Insert(x, s)[k]
      {
      }
    }
  }

  /** Every entry of the sorted list is an entry of the input. */
  lemma SortByRankMembers(s: seq<LeaderboardEntry>)
    ensures |SortByRank(s)| == |s|
    ensures forall k :: 0 <= k < |SortByRank(s)| ==> exists q :: 0 <= q < |s| && s[q] == SortByRank(s)[k]
  {
    var t := SortByRank(s);
    SortByRankOrdered(s);
    assert |t| == |multiset(t)| == |multiset(s)| == |s|;
    forall k | 0 <= k < |t|
      ensures exists q :: 0 <= q < |s| && s[q] == t[k]
    {
      assert t[k] in multiset(t);
      assert t[k] in s;
    }
  }

  /** Sorting distinct players' entries keeps them distinct. */
  lemma {:induction false} SortByRankDistinct(s: seq<LeaderboardEntry>)
    requires DistinctPlayers(s)
    ensures DistinctPlayers(SortByRank(s))
  {
    if |s| > 0 {
      var prev := s[..|s| - 1];
      var x := s[|s| - 1];
      SortByRankDistinct(prev);
      SortByRankMembers(prev);
      var t := SortByRank(prev);
      forall k | 0 <= k < |t|
        ensures t[k].playerName != x.playerName
      {
        var q :| 0 <= q < |prev| && prev[q] == t[k];
        assert s[q] == t[k];
      }
      InsertDistinct(x, t);
    }
  }

  /** A prefix of a list in tie order is in tie order. */
  lemma PrefixTieOrder(rs: seq<LeaderboardEntry>, s: seq<LeaderboardEntry>, n: nat)
    requires n <= |s| && TiesInFirstSeenOrder(rs, s)
    ensures TiesInFirstSeenOrder(rs, s[..n])
  {
    forall i, j | 0 <= i < j < n
      ensures s[..n][i] == s[i] && s[..n][j] == s[j]
    {
    }
  }

  /** The cut leaderboard lists tied entries in first-seen order. */
  lemma LeaderboardTieOrder(rs: seq<LeaderboardEntry>, limitCount: int)
    ensures TiesInFirstSeenOrder(rs, SortByRank(BestPerPlayer(rs)))
    ensures TiesInFirstSeenOrder(rs, GetLeaderboard(rs, limitCount))
  {
    var sorted := SortByRank(BestPerPlayer(rs));
    BestPerPlayerOrder(rs);
    SortByRankTieOrder(rs, BestPerPlayer(rs));
    PrefixTieOrder(rs, sorted, |GetLeaderboard(rs, limitCount)|);
  }

  /** The leaderboard holds at most `limitCount` entries, one per player,
      each its player's first best result, sorted by (moves, time); entries
      that tie on (moves, time) are listed in the order their players were
      first seen. */
  lemma GetLeaderboardSpec(rs: seq<LeaderboardEntry>, limitCount: int)
    requires limitCount >= 0
    ensures |GetLeaderboard(rs, limitCount)| <= limitCount
    ensures DistinctPlayers(GetLeaderboard(rs, limitCount))
    ensures SortedByRank(GetLeaderboard(rs, limitCount))
    ensures forall k :: 0 <= k < |GetLeaderboard(rs, limitCount)| ==> KeptFirstBest(rs, GetLeaderboard(rs, limitCount)[k])
    ensures TiesInFirstSeenOrder(rs, GetLeaderboard(rs, limitCount))
  {
    var best := BestPerPlayer(rs);
    var sorted := SortByRank(best);
    var out := GetLeaderboard(rs, limitCount);
    BestPerPlayerSpec(rs);
    SortByRankSpec(best);
    SortByRankDistinct(best);
    SortByRankMembers(best);
    assert out == sorted[..|out|];
    LeaderboardTieOrder(rs, limitCount);
    forall k | 0 <= k < |out|
      ensures KeptFirstBest(rs, out[k])
    {
      var q :| 0 <= q < |best| && best[q] == sorted[k];
    }
  }

  lemma PrefixHasPlayer(out: seq<LeaderboardEntry>, sorted: seq<LeaderboardEntry>, p: int)
    requires |out| <= |sorted| && out == sorted[..|out|] && 0 <= p < |sorted|
    ensures p < |out| ==> HasPlayer(out, sorted[p].playerName)
  {
    if p < |out| {
      assert out[p] == sorted[p];
    }
  }

  /** A player's first best result is no worse than any of that player's results. */
  lemma FirstBestIsNoWorse(rs: seq<LeaderboardEntry>, i: int, j: int)
    requires FirstBestAt(rs, i) && 0 <= j < |rs| && rs[j].playerName == rs[i].playerName
    ensures !Better(rs[j], rs[i])
  {
  }

  /** Every player with results has an entry in the grouping, and that
      entry is no worse than any of the player's results. */
  lemma BestEntryOf(rs: seq<LeaderboardEntry>, j: int) returns (q: nat)
    requires 0 <= j < |rs|
    ensures q < |BestPerPlayer(rs)|
    ensures BestPerPlayer(rs)[q].playerName == rs[j].playerName
    ensures !Better(rs[j], BestPerPlayer(rs)[q])
  {
    var best := BestPerPlayer(rs);
    BestPerPlayerSpec(rs);
    q :| 0 <= q < |best| && best[q].playerName == rs[j].playerName;
    var i :| FirstBestAt(rs, i) && rs[i] == best[q];
    FirstBestIsNoWorse(rs, i, j);
  }

  /** Two tied entries of a list in tie order: the earlier one's player was
      seen first. */
  lemma TiedAcrossCut(rs: seq<LeaderboardEntry>, s: seq<LeaderboardEntry>, k: int, p: int)
    requires TiesInFirstSeenOrder(rs, s) && 0 <= k < p < |s| && Tied(s[k], s[p])
    ensures FirstSeen(rs, s[k].playerName) < FirstSeen(rs, s[p].playerName)
  {
  }

  /** A player who has results but is not on the leaderboard is outranked or
      tied by every listed entry, and the leaderboard is full; every listed
      entry tied with one of that player's results belongs to a player seen
      earlier. */
  lemma UnlistedPlayerOutranked(rs: seq<LeaderboardEntry>, limitCount: int, j: int)
    requires limitCount >= 0
    requires 0 <= j < |rs| && !HasPlayer(GetLeaderboard(rs, limitCount), rs[j].playerName)
    ensures |GetLeaderboard(rs, limitCount)| == limitCount
    ensures forall k :: 0 <= k < |GetLeaderboard(rs, limitCount)| ==> !Better(rs[j], GetLeaderboard(rs, limitCount)[k])
    ensures forall k :: 0 <= k < |GetLeaderboard(rs, limitCount)| && Tied(GetLeaderboard(rs, limitCount)[k], rs[j]) ==>
              FirstSeen(rs, GetLeaderboard(rs, limitCount)[k].playerName) < FirstSeen(rs, rs[j].playerName)
  {
    var best := BestPerPlayer(rs);
    var sorted := SortByRank(best);
    var out := GetLeaderboard(rs, limitCount);
    var q := BestEntryOf(rs, j);
    SortByRankOrdered(best);
    LeaderboardTieOrder(rs, limitCount);
    assert best[q] in multiset(sorted);
    var p :| 0 <= p < |sorted| && sorted[p] == best[q];
    PrefixHasPlayer(out, sorted, p);
    assert p >= |out|;
    forall k | 0 <= k < |out|
      ensures !Better(rs[j], out[k])
      ensures Tied(out[k], rs[j]) ==> FirstSeen(rs, out[k].playerName) < FirstSeen(rs, rs[j].playerName)
    {
      assert out[k] == sorted[k];
      assert !Better(sorted[p], sorted[k]);
      if Tied(out[k], rs[j]) {
        TiedAcrossCut(rs, sorted, k, p);
      }
    }
  }

  /** Two results of one player: only the one with fewer moves is listed. */
  lemma SamePlayerKeepsFewerMoves(slow: GameResult, fast: GameResult)
    requires slow.moves == 10 && slow.time == 50
    requires fast.moves == 8 && fast.time == 60
    ensures GetLeaderboard([LeaderboardEntry("a", "Ann", slow), LeaderboardEntry("b", "Ann", fast)], DefaultLimit)
            == [LeaderboardEntry("b", "Ann", fast)]
  {
    var e1 := LeaderboardEntry("a", "Ann", slow);
    var e2 := LeaderboardEntry("b", "Ann", fast);
    var rs := [e1, e2];
    assert rs[..1] == [e1];
    assert rs[..0] == [];
    assert BestPerPlayer([e1][..0]) == [];
    assert BestPerPlayer([e1]) == [e1];
    assert FindPlayer([e1], "Ann") == Some(0);
    assert Better(e2, e1);
    assert KeepBest([e1], e2) == [e2];
    assert BestPerPlayer(rs) == [e2];
    assert SortByRank([e2]) == [e2];
    assert SlicePrefix([e2], DefaultLimit) == [e2];
  }
}
