/**
 * The leaderboard part of the persisted document: per-household rankings kept in
 * non-increasing point order, and the append-only log of past months.
 */
module Leaderboard {
  import opened Common
  import Dicts
  import Sorting
  import Seqs

  /** One household's ranking: username to points, in dictionary order. */
  type Ranking = Dicts.Dict<string, int>

  /** Every household's ranking, keyed by household name. */
  type Rankings = Dicts.Dict<string, Ranking>

  /** An entry of the past-rankings log. */
  datatype Archived =
    | MonthRankings(month: string, rankings: Rankings)
    | MonthTop(month: string, topUser: string, points: int)

  /** `data["leaderboard"]`: current rankings and the past-rankings log. */
  datatype Board = Board(rankings: Rankings, pastRankings: seq<Archived>)

  /** The empty board of a fresh document. */
  const EmptyBoard: Board := Board(Dicts.Empty(), [])

  /** The sort key of a ranking entry: its points. */
  function Score(e: (string, int)): int {
    e.1
  }

  /**
   * `dict(sorted(r.items(), key=lambda item: item[1], reverse=True))`: the same entries,
   * listed by the stable sort of the items.
   */
  function Sort(r: Ranking): Ranking {
    Dicts.Dict(Dicts.KeysOf(Sorting.SortDesc(Dicts.Items(r), Score)), r.values)
  }

  /** The sorted ranking holds the same entries, and its items are the sorted items. */
  lemma SortEffect(r: Ranking)
    ensures Sort(r).values == r.values
    ensures Dicts.Items(Sort(r)) == Sorting.SortDesc(Dicts.Items(r), Score)
  {
    var sorted := Sorting.SortDesc(Dicts.Items(r), Score);
    PermutedItemsAreEntries(r, sorted);
    Dicts.ItemsOfKeys(sorted, r.values);
  }

  /** Every pair of a permutation of the items is an entry of the ranking. */
  lemma PermutedItemsAreEntries(r: Ranking, ps: seq<(string, int)>)
    requires multiset(ps) == multiset(Dicts.Items(r))
    ensures forall i :: 0 <= i < |ps| ==> ps[i].0 in r.values && r.values[ps[i].0] == ps[i].1
  {
    var items := Dicts.Items(r);
    Dicts.ItemsOfEntries(r.keys, r.values);
    forall i | 0 <= i < |ps| ensures ps[i].0 in r.values && r.values[ps[i].0] == ps[i].1 {
      assert ps[i] in multiset(items);
      var j :| 0 <= j < |items| && items[j] == ps[i];
    }
  }

  /** Sorting a well-formed ranking gives a well-formed dictionary: each user is listed once. */
  lemma SortKeepsValid(r: Ranking)
    ensures Dicts.Valid(r) ==> Dicts.Valid(Sort(r))
  {
    if Dicts.Valid(r) {
      var sorted := Sorting.SortDesc(Dicts.Items(r), Score);
      PermutedItemsAreEntries(r, sorted);
      Dicts.PermutedItemsValid(r, sorted);
    }
  }

  /** A ranking as the program keeps it: best score first. */
  ghost predicate RankingOk(r: Ranking) {
    Sorting.SortedDesc(Dicts.Items(r), Score)
  }

  /** Every ranking on the board is kept sorted. */
  ghost predicate BoardOk(b: Board) {
    forall h :: h in b.rankings.values ==> RankingOk(b.rankings.values[h])
  }

  /** The sort keeps, for every score, the users holding it in their dictionary order. */
  lemma SortKeepsTies(r: Ranking, points: int)
    ensures Sorting.WithKey(Dicts.Items(Sort(r)), Score, points) == Sorting.WithKey(Dicts.Items(r), Score, points)
  {
    SortEffect(r);
    Sorting.SortStable(Dicts.Items(r), Score, points);
  }

  /** The household's ranking, empty when it has none yet. */
  function RankingOf(b: Board, household: string): Ranking {
    Dicts.Get(b.rankings, household).GetOr(Dicts.Empty())
  }

  /**
   * `Leaderboard.update(user)`: give the household a ranking if it has none, set the
   * user's points in it, and store it re-sorted. Other households' rankings and the log
   * stay as they were.
   */
  function Update(b: Board, household: string, username: string, points: int): Board {
    Board(Dicts.Put(b.rankings, household, Sort(Dicts.Put(RankingOf(b, household), username, points))),
          b.pastRankings)
  }

  /**
   * After an update the household has a ranking, sorted, in which the user has the new
   * points and every other user what they had; other households' rankings and the log
   * are as they were.
   */
  lemma UpdateEffect(b: Board, household: string, username: string, points: int)
    ensures var r := Update(b, household, username, points);
            && r.pastRankings == b.pastRankings
            && (forall h :: h != household ==> Dicts.Get(r.rankings, h) == Dicts.Get(b.rankings, h))
            && household in r.rankings.values
            && Dicts.Get(RankingOf(r, household), username) == Some(points)
            && (forall u :: u != username ==> Dicts.Get(RankingOf(r, household), u) == Dicts.Get(RankingOf(b, household), u))
            && RankingOk(RankingOf(r, household))
  {
    var updated := Dicts.Put(RankingOf(b, household), username, points);
    SortEffect(updated);
  }

  /** An update keeps every ranking on the board sorted. */
  lemma UpdateKeepsBoardOk(b: Board, household: string, username: string, points: int)
    requires BoardOk(b)
    ensures BoardOk(Update(b, household, username, points))
  {
    var r := Update(b, household, username, points);
    UpdateEffect(b, household, username, points);
    forall h | h in r.rankings.values ensures RankingOk(r.rankings.values[h]) {
      if h != household {
        assert Dicts.Get(r.rankings, h) == Dicts.Get(b.rankings, h);
      }
    }
  }

  /**
   * The refreshed ranking lists users with equal points in the order the ranking had them,
   * a newcomer after them.
   */
  lemma UpdateKeepsTies(b: Board, household: string, username: string, points: int, score: int)
    ensures var after := RankingOf(Update(b, household, username, points), household);
            Sorting.WithKey(Dicts.Items(after), Score, score)
              == Sorting.WithKey(Dicts.Items(Dicts.Put(RankingOf(b, household), username, points)), Score, score)
  {
    SortKeepsTies(Dicts.Put(RankingOf(b, household), username, points), score);
  }

  /** The scores of the rankings listed under `hs`, household by household. */
  function ScoresOf(hs: seq<string>, m: map<string, Ranking>): seq<(string, int)> {
    if |hs| == 0 then []
    else (if hs[0] in m then Dicts.Items(m[hs[0]]) else []) + ScoresOf(hs[1..], m)
  }

  /** `[(user, points) for household in rankings.values() for user, points in household.items()]`. */
  function AllScores(rs: Rankings): seq<(string, int)> {
    ScoresOf(rs.keys, rs.values)
  }

  /** The score `e` is an item of one of the rankings, visited in dictionary order. */
  ghost predicate Listed(rs: Rankings, e: (string, int)) {
    exists i :: 0 <= i < |rs.keys| && rs.keys[i] in rs.values && e in Dicts.Items(rs.values[rs.keys[i]])
  }

  /** A score is collected exactly when some household's ranking lists it. */
  lemma {:induction false} ScoresOfMembers(hs: seq<string>, m: map<string, Ranking>, e: (string, int))
    ensures e in ScoresOf(hs, m) <==> exists i :: 0 <= i < |hs| && hs[i] in m && e in Dicts.Items(m[hs[i]])
  {
    if |hs| > 0 {
      ScoresOfMembers(hs[1..], m, e);
      if e in ScoresOf(hs[1..], m) {
        var i :| 0 <= i < |hs[1..]| && hs[1..][i] in m && e in Dicts.Items(m[hs[1..][i]]);
        assert hs[i + 1] == hs[1..][i];
      }
      if exists i :: 0 <= i < |hs| && hs[i] in m && e in Dicts.Items(m[hs[i]]) {
        var i :| 0 <= i < |hs| && hs[i] in m && e in Dicts.Items(m[hs[i]]);
        if i > 0 {
          assert hs[1..][i - 1] == hs[i];
        }
      }
    }
  }

  lemma AllScoresListed(rs: Rankings, e: (string, int))
    ensures e in AllScores(rs) <==> Listed(rs, e)
  {
    ScoresOfMembers(rs.keys, rs.values, e);
  }

  /**
   * The first highest collected score is listed and beats every listed score; there is
   * none exactly when nothing is listed.
   */
  lemma TopScoreIsBest(rs: Rankings)
    ensures |AllScores(rs)| == 0 <==> forall e :: !Listed(rs, e)
    ensures |AllScores(rs)| > 0 ==>
              var all := AllScores(rs);
              var best := all[Seqs.FirstMaxIndex(all, Score)];
              && Listed(rs, best)
              && forall e :: Listed(rs, e) ==> e.1 <= best.1
  {
    var all := AllScores(rs);
    forall e | Listed(rs, e) ensures e in all {
      AllScoresListed(rs, e);
    }
    if |all| > 0 {
      var best := all[Seqs.FirstMaxIndex(all, Score)];
      AllScoresListed(rs, all[0]);
      AllScoresListed(rs, best);
      forall e | Listed(rs, e) ensures e.1 <= best.1 {
        var j :| 0 <= j < |all| && all[j] == e;
        assert Score(all[j]) <= Score(best);
      }
    }
  }

  /**
   * `reset_monthly`: log a copy of the rankings under the month label, log the top
   * scorer across all households when there is one, and clear the rankings.
   */
  function ResetMonthly(b: Board, month: string): (r: Board)
    ensures r.rankings == Dicts.Empty()
    ensures |b.pastRankings| + 1 <= |r.pastRankings| <= |b.pastRankings| + 2
    ensures r.pastRankings[..|b.pastRankings|] == b.pastRankings
    ensures r.pastRankings[|b.pastRankings|] == MonthRankings(month, b.rankings)
    ensures (|r.pastRankings| == |b.pastRankings| + 2) <==> (exists e :: Listed(b.rankings, e))
    ensures |r.pastRankings| == |b.pastRankings| + 2 ==>
              var top := r.pastRankings[|b.pastRankings| + 1];
              && top.MonthTop?
              && top.month == month
              && Listed(b.rankings, (top.topUser, top.points))
              && (forall e :: Listed(b.rankings, e) ==> e.1 <= top.points)
              && exists k :: 0 <= k < |AllScores(b.rankings)| && AllScores(b.rankings)[k] == (top.topUser, top.points)
                   && forall j :: 0 <= j < k ==> AllScores(b.rankings)[j].1 < top.points
  {
    var logged := b.pastRankings + [MonthRankings(month, b.rankings)];
    var all := AllScores(b.rankings);
    TopScoreIsBest(b.rankings);
    if |all| == 0 then
      Board(Dicts.Empty(), logged)
    else
      var best := all[Seqs.FirstMaxIndex(all, Score)];
      Board(Dicts.Empty(), logged + [MonthTop(month, best.0, best.1)])
  }

  /** `get_sorted_rankings`: the household's ranking sorted by points, or an empty one. */
  function GetSortedRankings(b: Board, household: string): (r: Ranking)
    ensures r.values == RankingOf(b, household).values
    ensures multiset(Dicts.Items(r)) == multiset(Dicts.Items(RankingOf(b, household)))
    ensures Dicts.Valid(RankingOf(b, household)) ==> Dicts.Valid(r)
    ensures RankingOk(r)
  {
    match Dicts.Get(b.rankings, household)
    case None => Dicts.EmptyValid<string, int>(); Dicts.Empty()
    case Some(ranking) => SortEffect(ranking); SortKeepsValid(ranking); Sort(ranking)
  }

  /** The sorted ranking lists every user at or above every user after them. */
  lemma SortedRankingsDescend(b: Board, household: string)
    ensures var items := Dicts.Items(GetSortedRankings(b, household));
            forall i, j :: 0 <= i < j < |items| ==> items[i].1 >= items[j].1
  {
    Sorting.SortedPairwise(Dicts.Items(GetSortedRankings(b, household)), Score);
  }

  /** On a well-kept board the sorted ranking lists the stored one's items in the same order. */
  lemma SortedRankingsAreStored(b: Board, household: string)
    requires BoardOk(b)
    ensures Dicts.Items(GetSortedRankings(b, household)) == Dicts.Items(RankingOf(b, household))
  {
    if household in b.rankings.values {
      SortEffect(b.rankings.values[household]);
      Sorting.SortSorted(Dicts.Items(b.rankings.values[household]), Score);
    }
  }

  /** Right after an update, the household's sorted ranking shows the user with the new points. */
  lemma UpdateShowsPoints(b: Board, household: string, username: string, points: int)
    ensures Dicts.Get(GetSortedRankings(Update(b, household, username, points), household), username)
         == Some(points)
  {
    UpdateEffect(b, household, username, points);
    SortEffect(RankingOf(Update(b, household, username, points), household));
  }

  /** `get_top_performers`: the past-rankings log, oldest first. */
  function GetTopPerformers(b: Board): seq<Archived> {
    b.pastRankings
  }

  /** The operations that change the board. */
  datatype BoardOp =
    | UpdateOp(household: string, username: string, points: int)
    | ResetOp(month: string)

  function Apply(b: Board, op: BoardOp): Board {
    match op
    case UpdateOp(h, u, p) => Update(b, h, u, p)
    case ResetOp(m) => ResetMonthly(b, m)
  }

  /** The board after a series of operations, first to last. */
  function Run(b: Board, ops: seq<BoardOp>): Board
    decreases |ops|
  {
    if |ops| == 0 then b else Run(Apply(b, ops[0]), ops[1..])
  }

  /** Whatever happens to the board, the past-rankings log only grows at its end. */
  lemma {:induction false} TopPerformersAppendOnly(b: Board, ops: seq<BoardOp>)
    ensures GetTopPerformers(b) <= GetTopPerformers(Run(b, ops))
    decreases |ops|
  {
    if |ops| > 0 {
      var b' := Apply(b, ops[0]);
      assert GetTopPerformers(b) <= GetTopPerformers(b');
      TopPerformersAppendOnly(b', ops[1..]);
    }
  }

  /** Whatever happens to the board, every ranking stays sorted by points. */
  lemma {:induction false} RunKeepsBoardOk(b: Board, ops: seq<BoardOp>)
    requires BoardOk(b)
    ensures BoardOk(Run(b, ops))
    decreases |ops|
  {
    if |ops| > 0 {
      if ops[0].UpdateOp? {
        UpdateKeepsBoardOk(b, ops[0].household, ops[0].username, ops[0].points);
      }
      RunKeepsBoardOk(Apply(b, ops[0]), ops[1..]);
    }
  }
}
