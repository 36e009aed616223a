/** The table helpers of src/go_analog_shared_functions.py: the "find
    similar games" lookup and the head/tail-sort-select step that prepares
    a result table for display. Both build new frames and change nothing. */
module SharedFunctions {
  import opened Numbers
  import opened Seqs
  import opened Sorting
  import opened Frames

  /** `find_similar_games(game_name, item_sim_matrix)`: every row of the
      game's similarity column, most similar first, except the first one
      (for a game-to-game matrix, normally the game itself). An unknown name
      gives the message "Game not in database". */
  function FindSimilarGames(gameName: string, ism: Matrix): (r: SimilarGames)
    requires WellFormedMatrix(ism)
    ensures r.NotFound? <==> gameName !in ism.columns
    ensures r.NotFound? ==> r.message == NotInDatabase
    ensures r.Found? ==> |r.games| == if |ism.index| == 0 then 0 else |ism.index| - 1
    ensures r.Found? ==> forall i, j :: 0 <= i < j < |r.games| ==> r.games[i].1 >= r.games[j].1
    ensures r.Found? && |ism.index| > 0 ==>
              exists top :: top in Column(ism, gameName)
                && multiset(r.games) + multiset{top} == multiset(Column(ism, gameName))
                && forall p :: p in r.games ==> p.1 <= top.1
    ensures r.Found? ==> DistinctBy(r.games, (p: (string, real)) => p.0)
  {
    if gameName !in ism.columns then NotFound(NotInDatabase)
    else
      var column := Column(ism, gameName);
      var sorted := SortBy(column, SimilarityKey, true);
      var games := if |sorted| == 0 then [] else sorted[1..];
      DropTop(column, sorted);
      ColumnDistinct(ism, gameName);
      SubMultisetDistinctBy(games, column, (p: (string, real)) => p.0);
      Found(games)
  }

  /** Dropping the first of a descending permutation of `column` leaves a
      descending list that, with the dropped maximum, is all of `column`. */
  lemma DropTop(column: seq<(string, real)>, sorted: seq<(string, real)>)
    requires multiset(sorted) == multiset(column) && SortedBy(sorted, SimilarityKey, true)
    ensures |sorted| == |column|
    ensures |sorted| > 0 ==> forall i, j :: 0 <= i < j < |sorted[1..]| ==> sorted[1..][i].1 >= sorted[1..][j].1
    ensures |sorted| > 0 ==>
              var top := sorted[0];
              && top in column
              && multiset(sorted[1..]) + multiset{top} == multiset(column)
              && forall p :: p in sorted[1..] ==> p.1 <= top.1
    ensures |sorted| > 0 ==> multiset(sorted[1..]) <= multiset(column)
  {
    assert |multiset(sorted)| == |multiset(column)|;
    if |sorted| > 0 {
      var games := sorted[1..];
      assert sorted == [sorted[0]] + games;
      assert sorted[0] in multiset(column);
      forall i, j | 0 <= i < j < |games| ensures games[i].1 >= games[j].1 {
        SimilarityOrder(sorted[i + 1], sorted[j + 1], true);
      }
      forall p | p in games ensures p.1 <= sorted[0].1 {
        var j :| 0 <= j < |games| && games[j] == p;
        SimilarityOrder(sorted[0], sorted[j + 1], true);
      }
    }
  }

  /** A similarity column holds one pair per row label. */
  lemma ColumnDistinct(ism: Matrix, name: string)
    requires WellFormedMatrix(ism) && name in ism.columns
    ensures DistinctBy(Column(ism, name), (p: (string, real)) => p.0)
  {
  }

  /** `rearrange_table(df, columns_to_show, order_by, how_many_rows, desc,
      reverse)`: `head` (or `tail` when `reverse`) of the frame, then
      `sort_values(by=[order_by], ascending=not desc)`, then
      `df[columns_to_show]`, which keeps every column carrying a requested
      label. */
  function RearrangeTable(df: Frame, show: seq<string>, orderBy: string, howManyRows: int,
                          desc: bool, reverse: bool): (r: Result<Frame>)
    ensures Rearranged(df, show, orderBy, howManyRows, desc, reverse, r)
  {
    var kept := KeptRows(df.rows, howManyRows, reverse);
    if orderBy !in df.columns then Err(KeyError([orderBy]))
    else if Repeated(df.columns, orderBy) then Err(ValueError(orderBy))
    else
      var k := IndexOf(df.columns, orderBy);
      if Mixed(kept, k) then Err(TypeError)
      else
        var sorted := SortBy(kept, ColumnKey(k), desc);
        if Missing(show, df.columns) != [] then Err(KeyError(Missing(show, df.columns)))
        else
          var ps := Positions(show, df.columns);
          var rows := SelectCells(sorted, ps);
          assert SortedSelection(kept, k, desc, ps, rows);
          Ok(Frame(LabelsAt(df.columns, ps), rows))
  }
}
