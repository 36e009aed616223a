/** The table helpers of sim.py: a "find similar games" lookup that keeps
    only the `n` most (or least) similar games, and a `rearrange_table`
    that sorts the head or tail of its frame in place. */
module Sim {
  import opened Numbers
  import opened Seqs
  import opened Sorting
  import opened Frames

  /** `a` is at least as extreme as `b`: larger when looking for the most
      similar games, smaller when looking for the least similar. */
  predicate AsExtreme(a: real, b: real, reverse: bool) {
    if reverse then a <= b else a >= b
  }

  /** `top` was dropped from the front of the selection `games` of
      `column`: together they are part of the column, `top` is at least as
      extreme as every selected game, and every selected game is at least as
      extreme as every game of the column left out. */
  predicate DroppedTop(column: seq<(string, real)>, games: seq<(string, real)>, top: (string, real), reverse: bool) {
    && top in column
    && multiset(games) + multiset{top} <= multiset(column)
    && (forall p :: p in games ==> AsExtreme(top.1, p.1, reverse))
    && forall p, q :: p in games && q in multiset(column) - multiset(games) - multiset{top} ==>
         AsExtreme(p.1, q.1, reverse)
  }

  /** `find_similar_games(game_name, item_sim_matrix, n, reverse)`: the
      `n + 1` largest (or, when `reverse`, smallest) similarities of the
      game's column, most extreme first, with the first of them dropped. An
      unknown name gives the message "Game not in database". */
  function FindSimilarGames(gameName: string, ism: Matrix, n: int, reverse: bool): (r: SimilarGames)
    requires WellFormedMatrix(ism)
    ensures r.NotFound? <==> gameName !in ism.columns
    ensures r.NotFound? ==> r.message == NotInDatabase
    ensures r.Found? ==> |r.games| == if n < 0 || |ism.index| == 0 then 0
                                       else if n < |ism.index| then n else |ism.index| - 1
    ensures r.Found? ==> forall i, j :: 0 <= i < j < |r.games| ==> AsExtreme(r.games[i].1, r.games[j].1, reverse)
    ensures r.Found? && n >= 0 && |ism.index| > 0 ==>
              exists top :: DroppedTop(Column(ism, gameName), r.games, top, reverse)
  {
    if gameName !in ism.columns then NotFound(NotInDatabase)
    else
      var column := Column(ism, gameName);
      var games := Extremes(column, n, reverse);
      ExtremesCount(column, n, reverse);
      ExtremesOrdered(column, n, reverse);
      if n >= 0 && |column| > 0 then
        ExtremesBeyond(column, n, reverse);
        Found(games)
      else Found(games)
  }

  /** The `n + 1` largest (or, when `reverse`, smallest) pairs of the
      column, without the first of them. */
  function Extremes(column: seq<(string, real)>, n: int, reverse: bool): seq<(string, real)> {
    var extremes := TopN(column, SimilarityKey, n + 1, !reverse);
    if |extremes| == 0 then [] else extremes[1..]
  }

  /** There are `min(n, len - 1)` extremes without the first, and none for
      a negative `n`. */
  lemma ExtremesCount(column: seq<(string, real)>, n: int, reverse: bool)
    ensures |Extremes(column, n, reverse)| == if n < 0 || |column| == 0 then 0
                                             else if n < |column| then n else |column| - 1
  {
  }

  /** The extremes without the first are ordered, most extreme first. */
  lemma ExtremesOrdered(column: seq<(string, real)>, n: int, reverse: bool)
    ensures forall i, j :: 0 <= i < j < |Extremes(column, n, reverse)| ==>
              AsExtreme(Extremes(column, n, reverse)[i].1, Extremes(column, n, reverse)[j].1, reverse)
  {
    var extremes := TopN(column, SimilarityKey, n + 1, !reverse);
    DropFirstExtreme(column, extremes, reverse);
  }

  /** With a non-negative `n` and a non-empty column, some game was dropped
      from the front of the extremes. */
  lemma ExtremesBeyond(column: seq<(string, real)>, n: int, reverse: bool)
    requires n >= 0 && |column| > 0
    ensures exists top :: DroppedTop(column, Extremes(column, n, reverse), top, reverse)
  {
    var extremes := TopN(column, SimilarityKey, n + 1, !reverse);
    assert |extremes| > 0 && Extremes(column, n, reverse) == extremes[1..];
    DropFirstExtreme(column, extremes, reverse);
    assert DroppedTop(column, Extremes(column, n, reverse), extremes[0], reverse);
  }

  /** Dropping the first of the `n + 1` extremes: the rest are sorted, and
      the dropped one was dropped from their front. */
  lemma DropFirstExtreme(column: seq<(string, real)>, extremes: seq<(string, real)>, reverse: bool)
    requires SortedBy(extremes, SimilarityKey, !reverse)
    requires multiset(extremes) <= multiset(column)
    requires forall x, y :: x in extremes && y in multiset(column) - multiset(extremes) ==> InOrder(SimilarityKey(x), SimilarityKey(y), !reverse)
    ensures |extremes| > 0 ==> forall i, j :: 0 <= i < j < |extremes[1..]| ==> AsExtreme(extremes[1..][i].1, extremes[1..][j].1, reverse)
    ensures |extremes| > 0 ==> DroppedTop(column, extremes[1..], extremes[0], reverse)
  {
    if |extremes| > 0 {
      var top, games := extremes[0], extremes[1..];
      assert extremes == [top] + games;
      assert multiset(extremes) == multiset(games) + multiset{top};
      assert top in multiset(column);
      forall i, j | 0 <= i < j < |games| ensures AsExtreme(games[i].1, games[j].1, reverse) {
        SimilarityOrder(extremes[i + 1], extremes[j + 1], !reverse);
      }
      forall p | p in games ensures AsExtreme(top.1, p.1, reverse) {
        var j :| 0 <= j < |games| && games[j] == p;
        SimilarityOrder(extremes[0], extremes[j + 1], !reverse);
      }
      forall p, q | p in games && q in multiset(column) - multiset(games) - multiset{top}
        ensures AsExtreme(p.1, q.1, reverse)
      {
        assert p in extremes;
        assert q in multiset(column) - multiset(extremes);
        assert InOrder(SimilarityKey(p), SimilarityKey(q), !reverse);
        SimilarityOrder(p, q, !reverse);
      }
    }
  }

  /** Swaps two rows of the frame's row array. */
  method Swap(a: array<seq<Cell>>, i: nat, j: nat)
    requires i < a.Length && j < a.Length
    modifies a
    ensures a[..] == old(a[..])[i := old(a[j])][j := old(a[i])]
    ensures multiset(a[..]) == multiset(old(a[..]))
  {
    a[i], a[j] := a[j], a[i];
  }

  /** `df.sort_values(by=[order_by], ascending=not desc, inplace=True)` on
      the rows: an insertion sort of the row array on column `k`. */
  method SortRows(a: array<seq<Cell>>, k: nat, desc: bool)
    modifies a
    ensures SortedBy(a[..], ColumnKey(k), desc)
    ensures multiset(a[..]) == multiset(old(a[..]))
  {
    var key := ColumnKey(k);
    var i := 0;
    while i < a.Length
      invariant 0 <= i <= a.Length
      invariant forall x, y :: 0 <= x < y < i ==> InOrder(key(a[x]), key(a[y]), desc)
      invariant multiset(a[..]) == multiset(old(a[..]))
    {
      var j := i;
      while j > 0 && !InOrder(key(a[j - 1]), key(a[j]), desc)
        invariant 0 <= j <= i < a.Length
        invariant forall x, y :: 0 <= x < y <= i && x != j && y != j ==> InOrder(key(a[x]), key(a[y]), desc)
        invariant forall y :: j < y <= i ==> InOrder(key(a[j]), key(a[y]), desc)
        invariant multiset(a[..]) == multiset(old(a[..]))
      {
        InOrderTotal(key(a[j - 1]), key(a[j]), desc);
        Swap(a, j - 1, j);
        j := j - 1;
      }
      forall x, y | 0 <= x < y <= i ensures InOrder(key(a[x]), key(a[y]), desc) {
        if y == j && x < j - 1 {
          InOrderTrans(key(a[x]), key(a[j - 1]), key(a[j]), desc);
        }
      }
      i := i + 1;
    }
  }

  /** `rearrange_table(df, columns_to_show, order_by, how_many_rows, desc,
      reverse)`: copies the head (or tail) rows into a fresh array, sorts it
      in place on `order_by`, then selects `columns_to_show`. */
  method RearrangeTable(df: Frame, show: seq<string>, orderBy: string, howManyRows: int,
                        desc: bool, reverse: bool) returns (r: Result<Frame>)
    ensures Rearranged(df, show, orderBy, howManyRows, desc, reverse, r)
  {
    var kept := KeptRows(df.rows, howManyRows, reverse);
    if orderBy !in df.columns {
      return Err(KeyError([orderBy]));
    }
    if Repeated(df.columns, orderBy) {
      return Err(ValueError(orderBy));
    }
    var k := IndexOf(df.columns, orderBy);
    if Mixed(kept, k) {
      return Err(TypeError);
    }
    var a := new seq<Cell>[|kept|](i requires 0 <= i < |kept| => kept[i]);
    assert a[..] == kept;
    SortRows(a, k, desc);
    var missing := Missing(show, df.columns);
    if missing != [] {
      return Err(KeyError(missing));
    }
    var ps := Positions(show, df.columns);
    var rows := SelectCells(a[..], ps);
    assert SortedSelection(kept, k, desc, ps, rows);
    r := Ok(Frame(LabelsAt(df.columns, ps), rows));
  }
}
