/** The recommender of src/go_analog.py: a Steam profile of (game id,
    minutes played) records is normalised, matched against the item
    similarity matrix (board games as rows, video games as columns) and
    turned into a ranked list of board games, each with a reason. */
module GoAnalog {
  import opened Numbers
  import opened Seqs
  import opened Sorting
  import opened Frames

  // ---------------------------------------------------------------------
  // normalize_ratings
  // ---------------------------------------------------------------------

  /** The playtime cutoff `recommend_boardgames` leaves at its default. */
  const PlaytimeCutoff := 10.0

  /** A record is played long enough: `rating >= cutoff`. */
  function LongEnough(cutoff: real): ((int, real)) -> bool {
    (p: (int, real)) => p.1 >= cutoff
  }

  /** The records `normalize_ratings` keeps, in profile order. */
  function Played(gameRatings: seq<(int, real)>, cutoff: real): seq<(int, real)> {
    Filter(gameRatings, LongEnough(cutoff))
  }

  /** `np.log` of the kept playtimes. */
  function LogRatings(played: seq<(int, real)>, ln: real -> real): (r: seq<Num>)
    ensures |r| == |played|
    ensures forall i :: 0 <= i < |played| ==> r[i] == Real(ln(played[i].1))
  {
    seq(|played|, i requires 0 <= i < |played| => Real(ln(played[i].1)))
  }

  /** `normalize_ratings(game_ratings, cutoff, z_scores)`: the kept records'
      ids, each with the log of its playtime, z-scored over the kept records
      when `z_scores` holds. */
  function NormalizeRatings(gameRatings: seq<(int, real)>, cutoff: real, zScores: bool,
                            ln: real -> real, sqrt: real -> real): (r: seq<(int, Num)>)
    ensures |r| == |Played(gameRatings, cutoff)|
    ensures Firsts(r) == Firsts(Played(gameRatings, cutoff))
  {
    var played := Played(gameRatings, cutoff);
    var logs := LogRatings(played, ln);
    Zip(Firsts(played), if zScores then ZScores(logs, sqrt) else logs)
  }

  /** `normalize_ratings` keeps exactly the records with a playtime of at
      least `cutoff`, in profile order, with their ids. */
  lemma NormalizeRatingsKeeps(gameRatings: seq<(int, real)>, cutoff: real, zScores: bool,
                              ln: real -> real, sqrt: real -> real)
    ensures |NormalizeRatings(gameRatings, cutoff, zScores, ln, sqrt)|
              == |set j | 0 <= j < |gameRatings| && gameRatings[j].1 >= cutoff|
    ensures Subsequence(Played(gameRatings, cutoff), gameRatings)
    ensures forall x :: x in Played(gameRatings, cutoff) <==> x in gameRatings && x.1 >= cutoff
    ensures forall i :: 0 <= i < |Played(gameRatings, cutoff)| ==>
              NormalizeRatings(gameRatings, cutoff, zScores, ln, sqrt)[i].0 == Played(gameRatings, cutoff)[i].0
  {
    var r := NormalizeRatings(gameRatings, cutoff, zScores, ln, sqrt);
    FilterLength(gameRatings, LongEnough(cutoff));
    CountPositions(gameRatings, LongEnough(cutoff));
    assert Where(gameRatings, LongEnough(cutoff)) == set j | 0 <= j < |gameRatings| && gameRatings[j].1 >= cutoff;
    FilterIsSubsequence(gameRatings, LongEnough(cutoff));
    forall i | 0 <= i < |r| ensures r[i].0 == Played(gameRatings, cutoff)[i].0 {
      assert Firsts(r)[i] == r[i].0;
    }
  }

  /** Without z-scoring each id carries the log of its own playtime; with
      it, each id carries the z-score of its own log playtime (scaled back
      by the deviation and shifted by the mean it is that log) and the
      scores have mean zero, unless their variance is zero (or a log is
      NaN), when all are NaN. */
  lemma NormalizeRatingsScores(gameRatings: seq<(int, real)>, cutoff: real, zScores: bool,
                               ln: real -> real, sqrt: real -> real)
    ensures var r := NormalizeRatings(gameRatings, cutoff, zScores, ln, sqrt);
            var played := Played(gameRatings, cutoff);
            && (!zScores ==> forall i :: 0 <= i < |r| ==> r[i].1 == Real(ln(played[i].1)))
            && (zScores && Standardizable(LogRatings(played, ln), sqrt) ==>
                  && AllReal(Seconds(r)) && Sum(Values(Seconds(r))) == 0.0
                  && var logs := Values(LogRatings(played, ln));
                     forall i :: 0 <= i < |r| ==> Restores(r[i].1, Std(logs, sqrt), Mean(logs), ln(played[i].1)))
            && (zScores && !Standardizable(LogRatings(played, ln), sqrt) ==>
                  forall i :: 0 <= i < |r| ==> r[i].1 == NaN)
  {
    var played := Played(gameRatings, cutoff);
    var r := NormalizeRatings(gameRatings, cutoff, zScores, ln, sqrt);
    var logs := LogRatings(played, ln);
    if zScores {
      var z := ZScores(logs, sqrt);
      assert Seconds(r) == z;
      if Standardizable(logs, sqrt) {
        ZScoresSumToZero(logs, sqrt);
        var vs := Values(logs);
        forall i | 0 <= i < |r| ensures Restores(r[i].1, Std(vs, sqrt), Mean(vs), ln(played[i].1)) {
          assert r[i].1 == z[i] && logs[i].v == ln(played[i].1);
        }
      }
    }
  }

  // ---------------------------------------------------------------------
  // recommend_boardgames: the played games, by name
  // ---------------------------------------------------------------------

  /** The id is in the id-to-name key. */
  function KnownId(idName: map<int, string>): ((int, Num)) -> bool {
    (p: (int, Num)) => p.0 in idName
  }

  /** The profile records whose id the key knows, in order, each renamed to
      its game name and keeping its playtime. */
  function NameGames(vgs: seq<(int, Num)>, idName: map<int, string>): (r: seq<(string, Num)>)
    ensures |r| == |Filter(vgs, KnownId(idName))|
  {
    var known := Filter(vgs, KnownId(idName));
    assert forall i :: 0 <= i < |known| ==> known[i] in known && KnownId(idName)(known[i]);
    seq(|known|, i requires 0 <= i < |known| => (idName[known[i].0], known[i].1))
  }

  /** The naming step drops exactly the records whose id has no name, and
      keeps every other record, in order, with its own playtime. */
  lemma NameGamesKeeps(vgs: seq<(int, Num)>, idName: map<int, string>)
    ensures |NameGames(vgs, idName)| == |set j | 0 <= j < |vgs| && vgs[j].0 in idName|
    ensures Subsequence(Filter(vgs, KnownId(idName)), vgs)
    ensures forall i :: 0 <= i < |NameGames(vgs, idName)| ==>
              var p := Filter(vgs, KnownId(idName))[i];
              p.0 in idName && NameGames(vgs, idName)[i] == (idName[p.0], p.1)
  {
    var known := Filter(vgs, KnownId(idName));
    FilterLength(vgs, KnownId(idName));
    CountPositions(vgs, KnownId(idName));
    assert Where(vgs, KnownId(idName)) == set j | 0 <= j < |vgs| && vgs[j].0 in idName;
    FilterIsSubsequence(vgs, KnownId(idName));
    assert forall i :: 0 <= i < |known| ==> known[i] in known;
  }

  /** Every named record comes from a record with a known id, and every
      such record is named, with its own playtime. */
  lemma NameGamesRecords(vgs: seq<(int, Num)>, idName: map<int, string>)
    ensures forall p :: p in vgs && p.0 in idName ==> (idName[p.0], p.1) in NameGames(vgs, idName)
    ensures forall q :: q in NameGames(vgs, idName) ==> exists p :: p in vgs && p.0 in idName && q == (idName[p.0], p.1)
  {
    var known := Filter(vgs, KnownId(idName));
    var r := NameGames(vgs, idName);
    forall p | p in vgs && p.0 in idName ensures (idName[p.0], p.1) in r {
      assert KnownId(idName)(p);
      assert p in known;
      var i :| 0 <= i < |known| && known[i] == p;
      assert r[i] == (idName[p.0], p.1);
    }
    forall q | q in r ensures exists p :: p in vgs && p.0 in idName && q == (idName[p.0], p.1) {
      var i :| 0 <= i < |r| && r[i] == q;
      assert known[i] in known;
      assert KnownId(idName)(known[i]);
    }
  }

  /** The played games, by name, with their normalised playtimes: lines
      64-72 with `normalize_ratings` at its defaults. */
  function PlayedGames(usage: seq<(int, real)>, idName: map<int, string>,
                       ln: real -> real, sqrt: real -> real): seq<(string, Num)>
  {
    NameGames(NormalizeRatings(usage, PlaytimeCutoff, true, ln, sqrt), idName)
  }

  // ---------------------------------------------------------------------
  // recommend_boardgames: candidates
  // ---------------------------------------------------------------------

  /** A similarity reaches the cutoff. */
  function Reaches(cutoff: real): real -> bool {
    (x: real) => x >= cutoff
  }

  /** `df[df >= neighbor_cutoff].count(axis=1)` for one row. */
  function NeighborCount(row: seq<real>, cutoff: real): nat {
    Count(row, Reaches(cutoff))
  }

  /** A row's neighbour count is the number of played columns whose
      similarity reaches the cutoff. */
  lemma NeighborCountSpec(row: seq<real>, cutoff: real)
    ensures NeighborCount(row, cutoff) == |set j | 0 <= j < |row| && row[j] >= cutoff|
  {
    CountPositions(row, Reaches(cutoff));
    assert Where(row, Reaches(cutoff)) == set j | 0 <= j < |row| && row[j] >= cutoff;
  }

  /** The row has at least `minNeighbors` neighbours. */
  function Eligible(cutoff: real, minNeighbors: int): ((string, seq<real>)) -> bool {
    (p: (string, seq<real>)) => NeighborCount(p.1, cutoff) >= minNeighbors
  }

  /** `bgs_with_neighbors`, each with its row of `df`: the board games with
      enough neighbours, in matrix order. */
  function CandidateRows(index: seq<string>, sub: seq<seq<real>>, cutoff: real, minNeighbors: int): seq<(string, seq<real>)>
    requires |index| == |sub|
  {
    Filter(Zip(index, sub), Eligible(cutoff, minNeighbors))
  }

  /** A row is a candidate exactly when its neighbour count reaches
      `minNeighbors`, and every candidate is a row of the matrix. */
  lemma CandidatesSpec(index: seq<string>, sub: seq<seq<real>>, cutoff: real, minNeighbors: int)
    requires |index| == |sub|
    ensures forall i :: 0 <= i < |index| ==>
              ((index[i], sub[i]) in CandidateRows(index, sub, cutoff, minNeighbors) <==>
                 NeighborCount(sub[i], cutoff) >= minNeighbors)
    ensures forall c :: c in CandidateRows(index, sub, cutoff, minNeighbors) ==>
              exists i :: 0 <= i < |index| && c == (index[i], sub[i])
  {
    var zip := Zip(index, sub);
    var p := Eligible(cutoff, minNeighbors);
    forall i | 0 <= i < |index|
      ensures (index[i], sub[i]) in CandidateRows(index, sub, cutoff, minNeighbors) <==>
                NeighborCount(sub[i], cutoff) >= minNeighbors
    {
      assert zip[i] == (index[i], sub[i]) && zip[i] in zip;
      assert p(zip[i]) <==> NeighborCount(sub[i], cutoff) >= minNeighbors;
    }
    forall c | c in CandidateRows(index, sub, cutoff, minNeighbors)
      ensures exists i :: 0 <= i < |index| && c == (index[i], sub[i])
    {
      assert c in zip;
    }
  }

  /** Candidates come in matrix order, each board game once. */
  lemma CandidatesOrdered(index: seq<string>, sub: seq<seq<real>>, cutoff: real, minNeighbors: int)
    requires |index| == |sub| && Distinct(index)
    ensures Subsequence(CandidateRows(index, sub, cutoff, minNeighbors), Zip(index, sub))
    ensures Distinct(Firsts(CandidateRows(index, sub, cutoff, minNeighbors)))
  {
    var zip := Zip(index, sub);
    var cands := CandidateRows(index, sub, cutoff, minNeighbors);
    FilterIsSubsequence(zip, Eligible(cutoff, minNeighbors));
    FilterMultiset(zip, Eligible(cutoff, minNeighbors));
    assert multiset(cands) <= multiset(zip) by {
      forall x ensures multiset(cands)[x] <= multiset(zip)[x] {
      }
    }
    var name := (p: (string, seq<real>)) => p.0;
    assert DistinctBy(zip, name);
    SubMultisetDistinctBy(cands, zip, name);
  }

  /** Every candidate row is as wide as the played-games list. */
  lemma CandidateWidths(index: seq<string>, sub: seq<seq<real>>, cutoff: real, minNeighbors: int, width: nat)
    requires |index| == |sub|
    requires forall i :: 0 <= i < |sub| ==> |sub[i]| == width
    ensures forall c :: c in CandidateRows(index, sub, cutoff, minNeighbors) ==> |c.1| == width
  {
    forall c | c in CandidateRows(index, sub, cutoff, minNeighbors) ensures |c.1| == width {
      assert c in Zip(index, sub);
    }
  }

  // ---------------------------------------------------------------------
  // recommend_boardgames: explanations
  // ---------------------------------------------------------------------

  const YouPlay := "You play…<br>"
  const Separator := ",<br>"
  const PopularGame := "It's a popular game " + "(rank predicted using average rating)"

  /** `', '.join(parts)` with any separator. */
  function Join(parts: seq<string>, sep: string): string {
    if |parts| == 0 then ""
    else if |parts| == 1 then parts[0]
    else parts[0] + sep + Join(parts[1..], sep)
  }

  /** `df.loc[...].transpose()[bg].nlargest(based_on_n)`: the `basedOnN`
      played games most similar to the board game whose row is `row`, as
      (name, similarity) pairs, most similar first. */
  function Listed(vgNames: seq<string>, row: seq<real>, basedOnN: int): seq<(string, real)>
    requires |vgNames| == |row|
  {
    TopN(Zip(vgNames, row), SimilarityKey, basedOnN, true)
  }

  /** The "Recommended because" text of a candidate. */
  function Explanation(vgNames: seq<string>, row: seq<real>, basedOnN: int): string
    requires |vgNames| == |row|
  {
    YouPlay + Join(Firsts(Listed(vgNames, row, basedOnN)), Separator)
  }

  /** An explanation names at most `basedOnN` played games (exactly that many
      when enough were played), each with its own similarity, most similar
      first, and none less similar than a played game it leaves out. */
  lemma ExplanationSpec(vgNames: seq<string>, row: seq<real>, basedOnN: int)
    requires |vgNames| == |row|
    ensures |Listed(vgNames, row, basedOnN)| ==
              if basedOnN <= 0 then 0 else if basedOnN <= |row| then basedOnN else |row|
    ensures forall k, l :: 0 <= k < l < |Listed(vgNames, row, basedOnN)| ==>
              Listed(vgNames, row, basedOnN)[k].1 >= Listed(vgNames, row, basedOnN)[l].1
    ensures multiset(Listed(vgNames, row, basedOnN)) <= multiset(Zip(vgNames, row))
    ensures forall p, q :: (p in Listed(vgNames, row, basedOnN)
                            && q in multiset(Zip(vgNames, row)) - multiset(Listed(vgNames, row, basedOnN))) ==>
              p.1 >= q.1
  {
    var listed := Listed(vgNames, row, basedOnN);
    var played := Zip(vgNames, row);
    forall k, l | 0 <= k < l < |listed| ensures listed[k].1 >= listed[l].1 {
      SimilarityOrder(listed[k], listed[l], true);
    }
    forall p, q | p in listed && q in multiset(played) - multiset(listed) ensures p.1 >= q.1 {
      SimilarityOrder(p, q, true);
    }
  }

  /** A candidate's explanation never reads like the popular-game text. */
  lemma ExplanationNotPopular(vgNames: seq<string>, row: seq<real>, basedOnN: int)
    requires |vgNames| == |row|
    ensures Explanation(vgNames, row, basedOnN) != PopularGame
  {
    var e := Explanation(vgNames, row, basedOnN);
    assert e[0] == YouPlay[0];
    assert e[0] != PopularGame[0];
  }

  /** The explanations of the candidates, in candidate order. */
  function Texts(cands: seq<(string, seq<real>)>, vgNames: seq<string>, basedOnN: int): (r: seq<string>)
    requires forall c :: c in cands ==> |c.1| == |vgNames|
    ensures |r| == |cands|
    ensures forall k :: 0 <= k < |cands| ==> r[k] == Explanation(vgNames, cands[k].1, basedOnN)
  {
    seq(|cands|, k requires 0 <= k < |cands| => Explanation(vgNames, cands[k].1, basedOnN))
  }

  /** `based_on_games_you_play` once its loop has run. */
  function ExplanationMap(cands: seq<(string, seq<real>)>, vgNames: seq<string>, basedOnN: int): map<string, string>
    requires forall c :: c in cands ==> |c.1| == |vgNames|
  {
    ZipMap(Firsts(cands), Texts(cands, vgNames, basedOnN))
  }

  // ---------------------------------------------------------------------
  // recommend_boardgames: predictions
  // ---------------------------------------------------------------------

  /** `user_item_neighbors.dot(playtimes)`: one signed sum per candidate. */
  function RawPredictions(cands: seq<(string, seq<real>)>, playtimes: seq<Num>): (r: seq<Num>)
    requires forall c :: c in cands ==> |c.1| == |playtimes|
    ensures |r| == |cands|
    ensures forall k :: 0 <= k < |cands| ==> r[k] == Dot(cands[k].1, playtimes)
  {
    seq(|cands|, k requires 0 <= k < |cands| => Dot(cands[k].1, playtimes))
  }

  /** The predictions, z-scored over the candidates. */
  function Predictions(cands: seq<(string, seq<real>)>, playtimes: seq<Num>, sqrt: real -> real): seq<Num>
    requires forall c :: c in cands ==> |c.1| == |playtimes|
  {
    ZScores(RawPredictions(cands, playtimes), sqrt)
  }

  /** One prediction per candidate. A raw prediction is the plain sum of
      similarity times playtime, with no division by the weights; it is a
      number exactly when every playtime is. The standardised predictions
      sum to zero unless they are all NaN. */
  lemma PredictionsSpec(cands: seq<(string, seq<real>)>, playtimes: seq<Num>, sqrt: real -> real)
    requires forall c :: c in cands ==> |c.1| == |playtimes|
    ensures var raw := RawPredictions(cands, playtimes);
            var preds := Predictions(cands, playtimes, sqrt);
            && |preds| == |cands|
            && (AllReal(playtimes) ==> forall k :: 0 <= k < |cands| ==>
                  raw[k] == Real(Inner(cands[k].1, Values(playtimes))))
            && (!AllReal(playtimes) ==> forall k :: 0 <= k < |cands| ==> preds[k] == NaN)
            && (Standardizable(raw, sqrt) ==> AllReal(preds) && Sum(Values(preds)) == 0.0)
            && (!Standardizable(raw, sqrt) ==> forall k :: 0 <= k < |cands| ==> preds[k] == NaN)
  {
    var raw := RawPredictions(cands, playtimes);
    if !AllReal(playtimes) && |cands| > 0 {
      assert !raw[0].Real?;
      assert !Standardizable(raw, sqrt);
    }
    if Standardizable(raw, sqrt) {
      ZScoresSumToZero(raw, sqrt);
    }
  }

  /** `dict(zip(bgs_with_neighbors, predictions))`. */
  function Ratings(cands: seq<(string, seq<real>)>, playtimes: seq<Num>, sqrt: real -> real): map<string, Num>
    requires forall c :: c in cands ==> |c.1| == |playtimes|
  {
    ZipMap(Firsts(cands), Predictions(cands, playtimes, sqrt))
  }

  // ---------------------------------------------------------------------
  // recommend_boardgames: the fallback score
  // ---------------------------------------------------------------------

  /** The score that marks a board game to leave out. */
  const Excluded := -100.0

  /** `bg_averages.get(name)`: NaN (from `None`) for a board game without an
      average rating. */
  function Average(bgAverages: map<string, real>, name: string): Num {
    if name in bgAverages then Real(bgAverages[name]) else NaN
  }

  /** `value_when_no_prediction` (lines 115-118), computed once: with
      `popular_games`, the average rating of `bg`, the last candidate the
      explanation loop bound (`UnboundLocalError` when there were no
      candidates); otherwise -100. */
  function Fallback(cands: seq<(string, seq<real>)>, popularGames: bool, bgAverages: map<string, real>): Result<Num> {
    if !popularGames then Ok(Real(Excluded))
    else if |cands| == 0 then Err(UnboundLocalError("bg"))
    else Ok(Average(bgAverages, cands[|cands| - 1].0))
  }

  /** Row `i` is the last row, in matrix order, with enough neighbours. */
  predicate LastCandidate(sub: seq<seq<real>>, cutoff: real, minNeighbors: int, i: int) {
    && 0 <= i < |sub| && NeighborCount(sub[i], cutoff) >= minNeighbors
    && forall j :: i < j < |sub| ==> NeighborCount(sub[j], cutoff) < minNeighbors
  }

  /** The fallback is -100 without `popular_games`; with it, it is the
      average rating of the last board game in matrix order that has enough
      neighbours, and there must be one. */
  lemma FallbackSpec(index: seq<string>, sub: seq<seq<real>>, cutoff: real, minNeighbors: int,
                     popularGames: bool, bgAverages: map<string, real>)
    requires |index| == |sub|
    ensures !popularGames ==>
              Fallback(CandidateRows(index, sub, cutoff, minNeighbors), popularGames, bgAverages) == Ok(Real(Excluded))
    ensures popularGames && (forall i :: 0 <= i < |index| ==> NeighborCount(sub[i], cutoff) < minNeighbors) ==>
              Fallback(CandidateRows(index, sub, cutoff, minNeighbors), popularGames, bgAverages) == Err(UnboundLocalError("bg"))
    ensures popularGames && (exists i :: 0 <= i < |index| && NeighborCount(sub[i], cutoff) >= minNeighbors) ==>
              exists i :: LastCandidate(sub, cutoff, minNeighbors, i) &&
                Fallback(CandidateRows(index, sub, cutoff, minNeighbors), popularGames, bgAverages) == Ok(Average(bgAverages, index[i]))
  {
    NoCandidates(index, sub, cutoff, minNeighbors);
    var cands := CandidateRows(index, sub, cutoff, minNeighbors);
    if popularGames && |cands| > 0 {
      var i := LastCandidateRow(index, sub, cutoff, minNeighbors);
    }
  }

  /** The last candidate is the last row with enough neighbours. */
  lemma LastCandidateRow(index: seq<string>, sub: seq<seq<real>>, cutoff: real, minNeighbors: int) returns (i: nat)
    requires |index| == |sub| && |CandidateRows(index, sub, cutoff, minNeighbors)| > 0
    ensures LastCandidate(sub, cutoff, minNeighbors, i)
    ensures var cands := CandidateRows(index, sub, cutoff, minNeighbors);
            cands[|cands| - 1] == (index[i], sub[i])
  {
    var zip := Zip(index, sub);
    var p := Eligible(cutoff, minNeighbors);
    i := FilterLast(zip, p);
    assert zip[i] == (index[i], sub[i]) && p(zip[i]);
    forall j | i < j < |sub| ensures NeighborCount(sub[j], cutoff) < minNeighbors {
      assert zip[j] == (index[j], sub[j]) && !p(zip[j]);
    }
  }

  /** The candidates list is empty exactly when no row has enough
      neighbours. */
  lemma NoCandidates(index: seq<string>, sub: seq<seq<real>>, cutoff: real, minNeighbors: int)
    requires |index| == |sub|
    ensures |CandidateRows(index, sub, cutoff, minNeighbors)| == 0 <==>
              forall i :: 0 <= i < |index| ==> NeighborCount(sub[i], cutoff) < minNeighbors
  {
    var zip := Zip(index, sub);
    var p := Eligible(cutoff, minNeighbors);
    var cands := CandidateRows(index, sub, cutoff, minNeighbors);
    if |cands| == 0 {
      forall i | 0 <= i < |index| ensures NeighborCount(sub[i], cutoff) < minNeighbors {
        assert zip[i] in zip;
        assert zip[i] !in cands;
        assert !p(zip[i]);
      }
    } else {
      assert cands[0] in cands && cands[0] in zip;
      assert p(cands[0]);
    }
  }

  // ---------------------------------------------------------------------
  // recommend_boardgames: output and ranking
  // ---------------------------------------------------------------------

  /** A row of `output`: (game, score, reason). */
  datatype Output = Output(game: string, score: Num, because: string)

  /** One output row for every row label of the matrix: the prediction and
      explanation of a candidate, the fallback and the popular-game text
      otherwise. */
  function Outputs(index: seq<string>, ratings: map<string, Num>, explanations: map<string, string>,
                   fallback: Num): (o: seq<Output>)
    ensures |o| == |index|
  {
    seq(|index|, i requires 0 <= i < |index| =>
      Output(index[i],
             if index[i] in ratings then ratings[index[i]] else fallback,
             if index[i] in explanations then explanations[index[i]] else PopularGame))
  }

  /** The `output` list of a matrix with row labels `index`, rows `sub`
      over the played games `vgNames` and their playtimes. */
  function OutputsOf(index: seq<string>, sub: seq<seq<real>>, vgNames: seq<string>, playtimes: seq<Num>,
                     cutoff: real, minNeighbors: int, basedOnN: int, fallback: Num, sqrt: real -> real): seq<Output>
    requires |index| == |sub| && |vgNames| == |playtimes|
    requires forall i :: 0 <= i < |sub| ==> |sub[i]| == |vgNames|
  {
    var cands := CandidateRows(index, sub, cutoff, minNeighbors);
    CandidateWidths(index, sub, cutoff, minNeighbors, |vgNames|);
    Outputs(index, Ratings(cands, playtimes, sqrt), ExplanationMap(cands, vgNames, basedOnN), fallback)
  }

  /** Every row label gets exactly one output row, in matrix order: a
      candidate gets its own prediction and explanation, any other board
      game the common fallback score and the popular-game text. */
  lemma OutputsSpec(index: seq<string>, sub: seq<seq<real>>, vgNames: seq<string>, playtimes: seq<Num>,
                    cutoff: real, minNeighbors: int, basedOnN: int, fallback: Num, sqrt: real -> real)
    requires |index| == |sub| && Distinct(index) && |vgNames| == |playtimes|
    requires forall i :: 0 <= i < |sub| ==> |sub[i]| == |vgNames|
    ensures |OutputsOf(index, sub, vgNames, playtimes, cutoff, minNeighbors, basedOnN, fallback, sqrt)| == |index|
    ensures forall i :: 0 <= i < |index| ==>
              OutputsOf(index, sub, vgNames, playtimes, cutoff, minNeighbors, basedOnN, fallback, sqrt)[i].game == index[i]
    ensures CandidateWidthsHold(CandidateRows(index, sub, cutoff, minNeighbors), |vgNames|)
    ensures forall i :: 0 <= i < |index| && NeighborCount(sub[i], cutoff) >= minNeighbors ==>
              var cands := CandidateRows(index, sub, cutoff, minNeighbors);
              var o := OutputsOf(index, sub, vgNames, playtimes, cutoff, minNeighbors, basedOnN, fallback, sqrt);
              exists k :: && 0 <= k < |cands| && cands[k] == (index[i], sub[i])
                          && o[i].score == Predictions(cands, playtimes, sqrt)[k]
                          && o[i].because == Explanation(vgNames, sub[i], basedOnN)
    ensures forall i :: 0 <= i < |index| && NeighborCount(sub[i], cutoff) < minNeighbors ==>
              var o := OutputsOf(index, sub, vgNames, playtimes, cutoff, minNeighbors, basedOnN, fallback, sqrt);
              o[i].score == fallback && o[i].because == PopularGame
  {
    CandidateWidths(index, sub, cutoff, minNeighbors, |vgNames|);
    forall i | 0 <= i < |index| {
      OutputRow(index, sub, vgNames, playtimes, cutoff, minNeighbors, basedOnN, fallback, sqrt, i);
    }
  }

  /** `OutputsSpec` for row `i`. */
  lemma OutputRow(index: seq<string>, sub: seq<seq<real>>, vgNames: seq<string>, playtimes: seq<Num>,
                  cutoff: real, minNeighbors: int, basedOnN: int, fallback: Num, sqrt: real -> real, i: nat)
    requires |index| == |sub| && Distinct(index) && |vgNames| == |playtimes|
    requires forall i :: 0 <= i < |sub| ==> |sub[i]| == |vgNames|
    requires i < |index|
    ensures CandidateWidthsHold(CandidateRows(index, sub, cutoff, minNeighbors), |vgNames|)
    ensures NeighborCount(sub[i], cutoff) >= minNeighbors ==>
              var cands := CandidateRows(index, sub, cutoff, minNeighbors);
              var o := OutputsOf(index, sub, vgNames, playtimes, cutoff, minNeighbors, basedOnN, fallback, sqrt);
              exists k :: && 0 <= k < |cands| && cands[k] == (index[i], sub[i])
                          && o[i].score == Predictions(cands, playtimes, sqrt)[k]
                          && o[i].because == Explanation(vgNames, sub[i], basedOnN)
    ensures NeighborCount(sub[i], cutoff) < minNeighbors ==>
              var o := OutputsOf(index, sub, vgNames, playtimes, cutoff, minNeighbors, basedOnN, fallback, sqrt);
              o[i].score == fallback && o[i].because == PopularGame
  {
    var cands := CandidateRows(index, sub, cutoff, minNeighbors);
    CandidateWidths(index, sub, cutoff, minNeighbors, |vgNames|);
    CandidatesSpec(index, sub, cutoff, minNeighbors);
    CandidatesOrdered(index, sub, cutoff, minNeighbors);
    var preds := Predictions(cands, playtimes, sqrt);
    var texts := Texts(cands, vgNames, basedOnN);
    OutputAt(index, sub, cands, preds, texts, fallback, i);
  }

  /** Row `i` of the output of a matrix whose candidates (rows of the
      matrix, with distinct names) carry the given values and texts. */
  lemma OutputAt(index: seq<string>, sub: seq<seq<real>>, cands: seq<(string, seq<real>)>,
                 values: seq<Num>, texts: seq<string>, fallback: Num, i: nat)
    requires |index| == |sub| && i < |index| && Distinct(index)
    requires |values| == |cands| && |texts| == |cands| && Distinct(Firsts(cands))
    requires forall c :: c in cands ==> exists j :: 0 <= j < |index| && c == (index[j], sub[j])
    ensures var o := Outputs(index, ZipMap(Firsts(cands), values), ZipMap(Firsts(cands), texts), fallback)[i];
            && ((index[i], sub[i]) in cands ==>
                  exists k :: 0 <= k < |cands| && cands[k] == (index[i], sub[i]) && o.score == values[k] && o.because == texts[k])
            && ((index[i], sub[i]) !in cands ==> o.score == fallback && o.because == PopularGame)
  {
    var names := Firsts(cands);
    if (index[i], sub[i]) in cands {
      var k :| 0 <= k < |cands| && cands[k] == (index[i], sub[i]);
      ZipMapAt(names, values, k);
      ZipMapAt(names, texts, k);
    } else {
      forall k | 0 <= k < |names| ensures names[k] != index[i] {
        assert cands[k] in cands;
        var j :| 0 <= j < |index| && cands[k] == (index[j], sub[j]);
        assert j != i;
        assert names[k] == index[j];
      }
    }
  }

  /** Every candidate row has the given width. */
  predicate CandidateWidthsHold(cands: seq<(string, seq<real>)>, width: nat) {
    forall c :: c in cands ==> |c.1| == width
  }

  /** A ranked recommendation: a row of the returned frame, with its
      ranking label. */
  datatype Recommendation = Recommendation(game: string, score: real, because: string, ranking: string)

  /** The output row a recommendation was made from. */
  function Entry(rec: Recommendation): Output {
    Output(rec.game, Real(rec.score), rec.because)
  }

  function Entries(rs: seq<Recommendation>): (r: seq<Output>)
    ensures |r| == |rs|
    ensures forall k :: 0 <= k < |rs| ==> r[k] == Entry(rs[k])
  {
    seq(|rs|, k requires 0 <= k < |rs| => Entry(rs[k]))
  }

  /** Decimal digits of a natural number, most significant first. */
  function NatToString(n: nat): (s: string)
    ensures |s| > 0 && forall c :: c in s ==> '0' <= c <= '9'
    ensures s[0] == '0' <==> n == 0
  {
    if n < 10 then [DigitChar(n)] else NatToString(n / 10) + [DigitChar(n % 10)]
  }

  function DigitChar(d: nat): (c: char)
    requires d < 10
    ensures '0' <= c <= '9' && c as int - '0' as int == d
  {
    (d + '0' as int) as char
  }

  /** The value of a string of decimal digits, read from the left. */
  function DigitsValue(s: string): nat
    requires forall c :: c in s ==> '0' <= c <= '9'
  {
    if |s| == 0 then 0
    else
      var front := s[..|s| - 1];
      assert s[|s| - 1] in s && forall c :: c in front ==> c in s;
      DigitsValue(front) * 10 + (s[|s| - 1] as int - '0' as int)
  }

  /** Reading a printed number back gives the number: `str` on naturals is
      injective, so the rank labels are distinct. */
  lemma {:induction false} NatToStringRoundTrip(n: nat)
    ensures DigitsValue(NatToString(n)) == n
  {
    if n >= 10 {
      NatToStringRoundTrip(n / 10);
      var s := NatToString(n);
      assert s[..|s| - 1] == NatToString(n / 10);
    }
  }

  /** The label of the `k`-th recommendation. */
  function Label(k: nat): (s: string)
    ensures |s| > 1 && s[0] == '#' && s[1..] == NatToString(k)
  {
    "#" + NatToString(k)
  }

  lemma LabelsDistinct(k: nat, l: nat)
    requires k != l
    ensures Label(k) != Label(l)
  {
    NatToStringRoundTrip(k);
    NatToStringRoundTrip(l);
    assert DigitsValue(Label(k)[1..]) == k;
    assert DigitsValue(Label(l)[1..]) == l;
  }

  /** The `Score` sort key. */
  function ScoreKey(o: Output): Cell {
    Number(o.score)
  }

  /** `output_df.Score > -100`: false for NaN. */
  function Shown(o: Output): bool {
    Above(o.score, Excluded)
  }

  /** The output rows sorted on score, highest first (NaN
      last), keeping the scores above -100. */
  function ShownRows(outputs: seq<Output>): (r: seq<Output>)
    ensures forall k :: 0 <= k < |r| ==> Shown(r[k])
  {
    var kept := Filter(SortBy(outputs, ScoreKey, true), Shown);
    assert forall k :: 0 <= k < |kept| ==> kept[k] in kept;
    kept
  }

  /** The kept rows labelled `#1`, `#2`, ... in order. */
  function Rank(kept: seq<Output>): (r: seq<Recommendation>)
    requires forall k :: 0 <= k < |kept| ==> Shown(kept[k])
    ensures |r| == |kept|
    ensures forall k :: 0 <= k < |kept| ==> Entry(r[k]) == kept[k] && r[k].ranking == Label(k + 1)
  {
    seq(|kept|, k requires 0 <= k < |kept| => Recommend(kept[k], k + 1))
  }

  /** A shown row as the recommendation of the given rank. */
  function Recommend(o: Output, rank: nat): (r: Recommendation)
    requires Shown(o)
    ensures Entry(r) == o && r.ranking == Label(rank)
  {
    Recommendation(o.game, o.score.v, o.because, Label(rank))
  }

  /** The returned frame: the rows above -100 sorted on score, highest
      first, then ranked. */
  function Ranked(outputs: seq<Output>): seq<Recommendation> {
    Rank(ShownRows(outputs))
  }

  /** The shown rows are sorted on score, highest first. */
  lemma ShownRowsSorted(outputs: seq<Output>)
    ensures forall k, l :: 0 <= k < l < |ShownRows(outputs)| ==>
              ShownRows(outputs)[k].score.v >= ShownRows(outputs)[l].score.v
  {
    var sorted := SortBy(outputs, ScoreKey, true);
    var kept := ShownRows(outputs);
    FilterIsSubsequence(sorted, Shown);
    SubsequenceSorted(kept, sorted, ScoreKey, true);
    forall k, l | 0 <= k < l < |kept| ensures kept[k].score.v >= kept[l].score.v {
      assert InOrder(ScoreKey(kept[k]), ScoreKey(kept[l]), true);
    }
  }

  /** The shown rows are the output rows scoring above -100, with their
      multiplicities; distinct games stay distinct. */
  lemma ShownRowsContents(outputs: seq<Output>)
    ensures forall o :: multiset(ShownRows(outputs))[o] == if Shown(o) then multiset(outputs)[o] else 0
    ensures DistinctBy(outputs, (o: Output) => o.game) ==> DistinctBy(ShownRows(outputs), (o: Output) => o.game)
  {
    var kept := ShownRows(outputs);
    var sorted := SortBy(outputs, ScoreKey, true);
    FilterMultiset(sorted, Shown);
    if DistinctBy(outputs, (o: Output) => o.game) {
      assert multiset(kept) <= multiset(outputs) by {
        forall x ensures multiset(kept)[x] <= multiset(outputs)[x] {
        }
      }
      SubMultisetDistinctBy(kept, outputs, (o: Output) => o.game);
    }
  }

  /** Each recommendation is the shown row at its rank. */
  lemma RankedEntries(outputs: seq<Output>)
    ensures Entries(Ranked(outputs)) == ShownRows(outputs)
  {
    var kept := ShownRows(outputs);
    var es := Entries(Rank(kept));
    assert forall k :: 0 <= k < |kept| ==> es[k] == kept[k];
  }

  /** The ranked list is exactly the output rows scoring above -100 (with
      their multiplicities), highest score first, labelled `#1…#n` in
      order; distinct games stay distinct. */
  lemma RankedSpec(outputs: seq<Output>)
    ensures forall k, l :: 0 <= k < l < |Ranked(outputs)| ==> Ranked(outputs)[k].score >= Ranked(outputs)[l].score
    ensures forall k :: 0 <= k < |Ranked(outputs)| ==>
              Ranked(outputs)[k].score > Excluded && Ranked(outputs)[k].ranking == Label(k + 1)
    ensures forall o :: multiset(Entries(Ranked(outputs)))[o] == if Shown(o) then multiset(outputs)[o] else 0
    ensures DistinctBy(outputs, (o: Output) => o.game) ==>
              DistinctBy(Ranked(outputs), (rec: Recommendation) => rec.game)
  {
    var kept := ShownRows(outputs);
    var r := Ranked(outputs);
    RankedEntries(outputs);
    ShownRowsSorted(outputs);
    ShownRowsContents(outputs);
    if DistinctBy(outputs, (o: Output) => o.game) {
      forall k, l | 0 <= k < l < |r| ensures r[k].game != r[l].game {
        assert r[k].game == kept[k].game && r[l].game == kept[l].game;
      }
    }
  }

  // ---------------------------------------------------------------------
  // recommend_boardgames
  // ---------------------------------------------------------------------

  /** The similarities of matrix row `i` to the played games, in played
      order: row `i` of `ism[vg_names]`. */
  function PlayedSimilarities(ism: Matrix, i: nat, names: seq<string>): (r: seq<real>)
    requires WellFormedMatrix(ism) && i < |ism.index| && forall n :: n in names ==> n in ism.columns
    ensures |r| == |names|
    ensures forall j :: 0 <= j < |names| ==> r[j] == Similarity(ism, i, names[j])
  {
    seq(|names|, j requires 0 <= j < |names| => Similarity(ism, i, names[j]))
  }

  /** Matrix row `i` is a candidate for the played games. */
  predicate Candidate(ism: Matrix, i: nat, names: seq<string>, cutoff: real, minNeighbors: int)
    requires WellFormedMatrix(ism) && i < |ism.index| && forall n :: n in names ==> n in ism.columns
  {
    NeighborCount(PlayedSimilarities(ism, i, names), cutoff) >= minNeighbors
  }

  /** `recommend_boardgames` past its HTTP request, as one function of the
      Steam profile `usage`, the
      id-to-name key, the similarity matrix, the tuning parameters and the
      rounded average ratings; `ln` and `sqrt` stand for numpy's. */
  function Recommendations(usage: seq<(int, real)>, idName: map<int, string>, ism: Matrix,
                           minNeighbors: int, neighborCutoff: real, basedOnN: int, popularGames: bool,
                           bgAverages: map<string, real>, ln: real -> real, sqrt: real -> real): Result<seq<Recommendation>>
    requires WellFormedMatrix(ism)
  {
    var named := PlayedGames(usage, idName, ln, sqrt);
    var vgNames, playtimes := Firsts(named), Seconds(named);
    var df := SelectColumns(ism, vgNames);
    if df.Err? then Err(df.error)
    else
      var cands := CandidateRows(ism.index, df.value, neighborCutoff, minNeighbors);
      var fallback := Fallback(cands, popularGames, bgAverages);
      if fallback.Err? then Err(fallback.error)
      else if |cands| == 0 && |ism.index| > 0 then Err(UnboundLocalError("based_on_games_you_play"))
      else Ok(Ranked(OutputsOf(ism.index, df.value, vgNames, playtimes, neighborCutoff, minNeighbors,
                               basedOnN, fallback.value, sqrt)))
  }

  /** `ism[vg_names]` row by row. */
  lemma SelectedRows(ism: Matrix, names: seq<string>)
    requires WellFormedMatrix(ism) && SelectColumns(ism, names).Ok?
    ensures forall n :: n in names ==> n in ism.columns
    ensures forall i :: 0 <= i < |ism.index| ==> SelectColumns(ism, names).value[i] == PlayedSimilarities(ism, i, names)
  {
    var sub := SelectColumns(ism, names).value;
    forall i | 0 <= i < |ism.index| ensures sub[i] == PlayedSimilarities(ism, i, names) {
    }
  }

  /** `recommend_boardgames` fails exactly when a played game is not a
      column of the matrix (`KeyError`), or when no board game has enough
      neighbours and either `popular_games` is set or the matrix has rows
      (`UnboundLocalError`). */
  lemma RecommendationsErrors(usage: seq<(int, real)>, idName: map<int, string>, ism: Matrix,
                              minNeighbors: int, neighborCutoff: real, basedOnN: int, popularGames: bool,
                              bgAverages: map<string, real>, ln: real -> real, sqrt: real -> real)
    requires WellFormedMatrix(ism)
    ensures var r := Recommendations(usage, idName, ism, minNeighbors, neighborCutoff, basedOnN, popularGames, bgAverages, ln, sqrt);
            var names := Firsts(PlayedGames(usage, idName, ln, sqrt));
            && (r.Err? && r.error.KeyError? <==> exists n :: n in names && n !in ism.columns)
            && ((forall n :: n in names ==> n in ism.columns) ==>
                  (r.Err? <==> (forall i :: 0 <= i < |ism.index| ==> !Candidate(ism, i, names, neighborCutoff, minNeighbors))
                               && (popularGames || |ism.index| > 0)))
  {
    var names := Firsts(PlayedGames(usage, idName, ln, sqrt));
    var df := SelectColumns(ism, names);
    if df.Ok? {
      var sub := df.value;
      SelectedRows(ism, names);
      NoCandidates(ism.index, sub, neighborCutoff, minNeighbors);
      var cands := CandidateRows(ism.index, sub, neighborCutoff, minNeighbors);
      assert |cands| == 0 <==> forall i :: 0 <= i < |ism.index| ==> !Candidate(ism, i, names, neighborCutoff, minNeighbors) by {
        forall i | 0 <= i < |ism.index|
          ensures Candidate(ism, i, names, neighborCutoff, minNeighbors) <==> NeighborCount(sub[i], neighborCutoff) >= minNeighbors
        {
          assert sub[i] == PlayedSimilarities(ism, i, names);
        }
      }
      var r := Recommendations(usage, idName, ism, minNeighbors, neighborCutoff, basedOnN, popularGames, bgAverages, ln, sqrt);
      assert r.Err? <==> |cands| == 0 && (popularGames || |ism.index| > 0);
    }
  }

  /** `game` is a row label of the matrix, and `because` fits it: the
      explanation by the most similar played games for a candidate, the
      popular-game text (only with `popular_games`) for any other row. */
  predicate Explained(ism: Matrix, names: seq<string>, cutoff: real, minNeighbors: int, basedOnN: int,
                      popularGames: bool, game: string, because: string)
    requires WellFormedMatrix(ism) && forall n :: n in names ==> n in ism.columns
  {
    exists i :: && 0 <= i < |ism.index| && ism.index[i] == game
                && (Candidate(ism, i, names, cutoff, minNeighbors) ==>
                      because == Explanation(names, PlayedSimilarities(ism, i, names), basedOnN))
                && (!Candidate(ism, i, names, cutoff, minNeighbors) ==> popularGames && because == PopularGame)
  }

  /** A successful `recommend_boardgames` lists board games of the matrix,
      each once, highest score first, every score above -100, labelled
      `#1…#n`. A candidate is explained by the played games most similar to
      it; any other board game is listed only with `popular_games`, as a
      popular game, and all of those share one score. */
  lemma RecommendationsSpec(usage: seq<(int, real)>, idName: map<int, string>, ism: Matrix,
                            minNeighbors: int, neighborCutoff: real, basedOnN: int, popularGames: bool,
                            bgAverages: map<string, real>, ln: real -> real, sqrt: real -> real)
    requires WellFormedMatrix(ism)
    requires Recommendations(usage, idName, ism, minNeighbors, neighborCutoff, basedOnN, popularGames, bgAverages, ln, sqrt).Ok?
    ensures forall n :: n in Firsts(PlayedGames(usage, idName, ln, sqrt)) ==> n in ism.columns
    ensures var rs := Recommendations(usage, idName, ism, minNeighbors, neighborCutoff, basedOnN, popularGames, bgAverages, ln, sqrt).value;
            var names := Firsts(PlayedGames(usage, idName, ln, sqrt));
            && RankedList(rs)
            && (forall k :: 0 <= k < |rs| ==>
                  Explained(ism, names, neighborCutoff, minNeighbors, basedOnN, popularGames, rs[k].game, rs[k].because))
            && (forall k, l ::
                  (0 <= k < |rs| && 0 <= l < |rs| && rs[k].because == PopularGame && rs[l].because == PopularGame) ==>
                  rs[k].score == rs[l].score)
  {
    var names := Firsts(PlayedGames(usage, idName, ln, sqrt));
    var o, fallback := RecommendationsOutputs(usage, idName, ism, minNeighbors, neighborCutoff, basedOnN, popularGames,
                                              bgAverages, ln, sqrt);
    RankedFacts(o);
    var rs := Ranked(o);
    forall k | 0 <= k < |rs|
      ensures Explained(ism, names, neighborCutoff, minNeighbors, basedOnN, popularGames, rs[k].game, rs[k].because)
    {
      var x := Entry(rs[k]);
      assert x in o && Shown(x);
    }
    forall k, l | 0 <= k < |rs| && 0 <= l < |rs| && rs[k].because == PopularGame && rs[l].because == PopularGame
      ensures rs[k].score == rs[l].score
    {
      assert Entry(rs[k]) in o && Entry(rs[l]) in o;
    }
  }

  /** `score` is what the output gives the matrix row labelled `game`: the
      candidate's standardised prediction, or the fallback for any other
      row. */
  ghost predicate Scored(index: seq<string>, sub: seq<seq<real>>, playtimes: seq<Num>, cutoff: real,
                         minNeighbors: int, fallback: Num, sqrt: real -> real, game: string, score: real)
    requires |index| == |sub|
    requires forall i :: 0 <= i < |sub| ==> |sub[i]| == |playtimes|
  {
    var cands := CandidateRows(index, sub, cutoff, minNeighbors);
    CandidateWidths(index, sub, cutoff, minNeighbors, |playtimes|);
    exists i :: && 0 <= i < |index| && index[i] == game
                && (NeighborCount(sub[i], cutoff) >= minNeighbors ==>
                      exists k :: && 0 <= k < |cands| && cands[k] == (index[i], sub[i])
                                  && Predictions(cands, playtimes, sqrt)[k] == Real(score))
                && (NeighborCount(sub[i], cutoff) < minNeighbors ==> fallback == Real(score))
  }

  /** Every recommended score is the one its board game earns: a candidate's
      standardised prediction, and for any other board game the fallback
      (`-100` without `popular_games`, else the rounded average rating of
      the last candidate). */
  lemma RecommendationsScores(usage: seq<(int, real)>, idName: map<int, string>, ism: Matrix,
                              minNeighbors: int, neighborCutoff: real, basedOnN: int, popularGames: bool,
                              bgAverages: map<string, real>, ln: real -> real, sqrt: real -> real)
    requires WellFormedMatrix(ism)
    requires Recommendations(usage, idName, ism, minNeighbors, neighborCutoff, basedOnN, popularGames, bgAverages, ln, sqrt).Ok?
    ensures var named := PlayedGames(usage, idName, ln, sqrt);
            var sub := SelectColumns(ism, Firsts(named)).value;
            var cands := CandidateRows(ism.index, sub, neighborCutoff, minNeighbors);
            var rs := Recommendations(usage, idName, ism, minNeighbors, neighborCutoff, basedOnN, popularGames, bgAverages, ln, sqrt).value;
            && Fallback(cands, popularGames, bgAverages).Ok?
            && forall k :: 0 <= k < |rs| ==>
                 Scored(ism.index, sub, Seconds(named), neighborCutoff, minNeighbors,
                        Fallback(cands, popularGames, bgAverages).value, sqrt, rs[k].game, rs[k].score)
  {
    var named := PlayedGames(usage, idName, ln, sqrt);
    var names, playtimes := Firsts(named), Seconds(named);
    var sub := SelectColumns(ism, names).value;
    var o, fallback := RecommendationsOutputs(usage, idName, ism, minNeighbors, neighborCutoff, basedOnN, popularGames,
                                              bgAverages, ln, sqrt);
    RankedScores(ism.index, sub, names, playtimes, neighborCutoff, minNeighbors, basedOnN, fallback, sqrt);
  }

  /** `RecommendationsScores` for the ranking of the output rows of a
      matrix with distinct row labels. */
  lemma RankedScores(index: seq<string>, sub: seq<seq<real>>, vgNames: seq<string>, playtimes: seq<Num>,
                     cutoff: real, minNeighbors: int, basedOnN: int, fallback: Num, sqrt: real -> real)
    requires |index| == |sub| && Distinct(index) && |vgNames| == |playtimes|
    requires forall i :: 0 <= i < |sub| ==> |sub[i]| == |vgNames|
    ensures var rs := Ranked(OutputsOf(index, sub, vgNames, playtimes, cutoff, minNeighbors, basedOnN, fallback, sqrt));
            forall k :: 0 <= k < |rs| ==>
              Scored(index, sub, playtimes, cutoff, minNeighbors, fallback, sqrt, rs[k].game, rs[k].score)
  {
    var o := OutputsOf(index, sub, vgNames, playtimes, cutoff, minNeighbors, basedOnN, fallback, sqrt);
    OutputsSpec(index, sub, vgNames, playtimes, cutoff, minNeighbors, basedOnN, fallback, sqrt);
    var rs := Ranked(o);
    RankedSpec(o);
    forall k | 0 <= k < |rs|
      ensures Scored(index, sub, playtimes, cutoff, minNeighbors, fallback, sqrt, rs[k].game, rs[k].score)
    {
      var x := Entry(rs[k]);
      assert Entries(rs)[k] in multiset(Entries(rs));
      assert x in o;
      var i :| 0 <= i < |o| && o[i] == x;
      assert o[i].game == index[i] && o[i].score == Real(rs[k].score);
    }
  }

  /** A successful run ranks the output rows of the selected matrix with
      the fallback score: rows with distinct games, each shown row
      explained, and the popular-game rows all scored by that one fallback
      value. */
  lemma RecommendationsOutputs(usage: seq<(int, real)>, idName: map<int, string>, ism: Matrix,
                               minNeighbors: int, neighborCutoff: real, basedOnN: int, popularGames: bool,
                               bgAverages: map<string, real>, ln: real -> real, sqrt: real -> real)
    returns (o: seq<Output>, fallback: Num)
    requires WellFormedMatrix(ism)
    requires Recommendations(usage, idName, ism, minNeighbors, neighborCutoff, basedOnN, popularGames, bgAverages, ln, sqrt).Ok?
    ensures forall n :: n in Firsts(PlayedGames(usage, idName, ln, sqrt)) ==> n in ism.columns
    ensures var named := PlayedGames(usage, idName, ln, sqrt);
            var sub := SelectColumns(ism, Firsts(named)).value;
            var cands := CandidateRows(ism.index, sub, neighborCutoff, minNeighbors);
            && Fallback(cands, popularGames, bgAverages).Ok?
            && fallback == Fallback(cands, popularGames, bgAverages).value
            && o == OutputsOf(ism.index, sub, Firsts(named), Seconds(named), neighborCutoff, minNeighbors,
                              basedOnN, fallback, sqrt)
    ensures Recommendations(usage, idName, ism, minNeighbors, neighborCutoff, basedOnN, popularGames, bgAverages, ln, sqrt).value == Ranked(o)
    ensures DistinctBy(o, (x: Output) => x.game)
    ensures forall x :: x in o && Shown(x) ==>
              Explained(ism, Firsts(PlayedGames(usage, idName, ln, sqrt)), neighborCutoff, minNeighbors, basedOnN,
                        popularGames, x.game, x.because)
    ensures forall x :: x in o && x.because == PopularGame ==> x.score == fallback
  {
    var named := PlayedGames(usage, idName, ln, sqrt);
    var names, playtimes := Firsts(named), Seconds(named);
    var sub := SelectColumns(ism, names).value;
    SelectedRows(ism, names);
    var cands := CandidateRows(ism.index, sub, neighborCutoff, minNeighbors);
    FallbackSpec(ism.index, sub, neighborCutoff, minNeighbors, popularGames, bgAverages);
    fallback := Fallback(cands, popularGames, bgAverages).value;
    o := OutputsOf(ism.index, sub, names, playtimes, neighborCutoff, minNeighbors, basedOnN, fallback, sqrt);
    OutputsSpec(ism.index, sub, names, playtimes, neighborCutoff, minNeighbors, basedOnN, fallback, sqrt);
    OutputsFacts(ism, o, names, sub, neighborCutoff, minNeighbors, basedOnN, fallback, popularGames);
  }

  /** The ranked list is sorted on score (highest first), keeps only scores
      above -100, carries the labels `#1…#n` in order and lists each game
      once. */
  predicate RankedList(rs: seq<Recommendation>) {
    && (forall k, l :: 0 <= k < l < |rs| ==> rs[k].score >= rs[l].score)
    && (forall k :: 0 <= k < |rs| ==> rs[k].score > Excluded && rs[k].ranking == Label(k + 1))
    && (forall k, l :: 0 <= k < l < |rs| ==> rs[k].game != rs[l].game && rs[k].ranking != rs[l].ranking)
  }

  /** The output rows, stated against the matrix rather than the candidate
      list. */
  lemma OutputsFacts(ism: Matrix, o: seq<Output>, names: seq<string>, sub: seq<seq<real>>, cutoff: real,
                     minNeighbors: int, basedOnN: int, fallback: Num, popularGames: bool)
    requires WellFormedMatrix(ism) && |sub| == |ism.index| == |o|
    requires forall n :: n in names ==> n in ism.columns
    requires forall i :: 0 <= i < |ism.index| ==> sub[i] == PlayedSimilarities(ism, i, names)
    requires forall i :: 0 <= i < |sub| ==> |sub[i]| == |names|
    requires forall i :: 0 <= i < |ism.index| ==> o[i].game == ism.index[i]
    requires forall i :: 0 <= i < |ism.index| && NeighborCount(sub[i], cutoff) >= minNeighbors ==>
               o[i].because == Explanation(names, sub[i], basedOnN)
    requires forall i :: 0 <= i < |ism.index| && NeighborCount(sub[i], cutoff) < minNeighbors ==>
               o[i].score == fallback && o[i].because == PopularGame
    requires !popularGames ==> fallback == Real(Excluded)
    ensures DistinctBy(o, (x: Output) => x.game)
    ensures forall x :: x in o && Shown(x) ==>
              Explained(ism, names, cutoff, minNeighbors, basedOnN, popularGames, x.game, x.because)
    ensures forall x :: x in o && x.because == PopularGame ==> x.score == fallback
  {
    forall x | x in o && Shown(x)
      ensures Explained(ism, names, cutoff, minNeighbors, basedOnN, popularGames, x.game, x.because)
    {
      var i :| 0 <= i < |o| && o[i] == x;
      assert sub[i] == PlayedSimilarities(ism, i, names);
    }
    forall x | x in o && x.because == PopularGame ensures x.score == fallback {
      var i :| 0 <= i < |o| && o[i] == x;
      if NeighborCount(sub[i], cutoff) >= minNeighbors {
        assert |names| == |sub[i]|;
        ExplanationNotPopular(names, sub[i], basedOnN);
      }
    }
  }

  /** Carries the facts about output rows over to the ranked list. */
  lemma RankedFacts(o: seq<Output>)
    requires DistinctBy(o, (x: Output) => x.game)
    ensures RankedList(Ranked(o))
    ensures forall k :: 0 <= k < |Ranked(o)| ==> Entry(Ranked(o)[k]) in o && Shown(Entry(Ranked(o)[k]))
  {
    var rs := Ranked(o);
    RankedSpec(o);
    forall k | 0 <= k < |rs| ensures Entry(rs[k]) in o && Shown(Entry(rs[k])) {
      assert Entries(rs)[k] in multiset(Entries(rs));
    }
    forall k, l | 0 <= k < l < |rs| ensures rs[k].ranking != rs[l].ranking {
      LabelsDistinct(k + 1, l + 1);
    }
  }

  /** The explanation dictionary, filled one candidate at a time with the
      candidate's explanation text. */
  method ExplainCandidates(cands: seq<(string, seq<real>)>, vgNames: seq<string>, basedOnN: int)
    returns (explanations: map<string, string>)
    requires forall c :: c in cands ==> |c.1| == |vgNames|
    ensures explanations == ExplanationMap(cands, vgNames, basedOnN)
  {
    var names, texts := Firsts(cands), Texts(cands, vgNames, basedOnN);
    explanations := map[];
    var k := 0;
    while k < |cands|
      invariant 0 <= k <= |cands|
      invariant explanations == ZipMap(names[..k], texts[..k])
    {
      var bg := cands[k].0;
      var because := Explanation(vgNames, cands[k].1, basedOnN);
      assert bg == names[k] && because == texts[k];
      ZipMapPrefix(names, texts, k);
      explanations := explanations[bg := because];
      k := k + 1;
    }
    assert names[..k] == names && texts[..k] == texts;
  }

  /** One output row per row label of the matrix, appended in order. Reading
      `based_on_games_you_play` when it was never bound (`bound` false)
      raises `UnboundLocalError` on the first row. */
  method AppendOutputs(index: seq<string>, ratings: map<string, Num>, explanations: map<string, string>,
                       bound: bool, fallback: Num)
    returns (r: Result<seq<Output>>)
    ensures !bound && |index| > 0 ==> r == Err(UnboundLocalError("based_on_games_you_play"))
    ensures bound || |index| == 0 ==> r == Ok(Outputs(index, ratings, explanations, fallback))
  {
    var output: seq<Output> := [];
    var i := 0;
    while i < |index|
      invariant 0 <= i <= |index|
      invariant output == Outputs(index, ratings, explanations, fallback)[..i]
      invariant i > 0 ==> bound
    {
      var bg := index[i];
      if !bound {
        return Err(UnboundLocalError("based_on_games_you_play"));
      }
      var score := if bg in ratings then ratings[bg] else fallback;
      var because := if bg in explanations then explanations[bg] else PopularGame;
      output := output + [Output(bg, score, because)];
      i := i + 1;
    }
    assert Outputs(index, ratings, explanations, fallback)[..i] == Outputs(index, ratings, explanations, fallback);
    r := Ok(output);
  }

  /** `recommend_boardgames` past its HTTP request, with the Steam profile, the
      id-to-name key and the average ratings given. */
  method RecommendBoardgames(usage: seq<(int, real)>, idName: map<int, string>, ism: Matrix,
                             minNeighbors: int, neighborCutoff: real, basedOnN: int, popularGames: bool,
                             bgAverages: map<string, real>, ln: real -> real, sqrt: real -> real)
    returns (r: Result<seq<Recommendation>>)
    requires WellFormedMatrix(ism)
    ensures r == Recommendations(usage, idName, ism, minNeighbors, neighborCutoff, basedOnN, popularGames, bgAverages, ln, sqrt)
  {
    var vgs := NormalizeRatings(usage, PlaytimeCutoff, true, ln, sqrt);
    var named := NameGames(vgs, idName);
    var vgNames, playtimes := Firsts(named), Seconds(named);
    var df := SelectColumns(ism, vgNames);
    if df.Err? {
      return Err(df.error);
    }
    var cands := CandidateRows(ism.index, df.value, neighborCutoff, minNeighbors);
    CandidateWidths(ism.index, df.value, neighborCutoff, minNeighbors, |vgNames|);
    var bound := |cands| > 0;
    var explanations: map<string, string> := map[];
    var ratings: map<string, Num> := map[];
    if bound {
      explanations := ExplainCandidates(cands, vgNames, basedOnN);
      ratings := Ratings(cands, playtimes, sqrt);
    }
    var fallback := Fallback(cands, popularGames, bgAverages);
    if fallback.Err? {
      return Err(fallback.error);
    }
    assert ratings == Ratings(cands, playtimes, sqrt) && explanations == ExplanationMap(cands, vgNames, basedOnN);
    var output := AppendOutputs(ism.index, ratings, explanations, bound, fallback.value);
    if output.Err? {
      return Err(output.error);
    }
    r := Ok(Ranked(output.value));
  }
}
