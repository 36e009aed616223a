/** The pandas objects the recommender works on: data frames of cells, the
    item-similarity matrix (board or video games as rows, video games as
    columns), the exceptions their indexing raises, and the specification
    of `rearrange_table`, which both table-helper files implement. */
module Frames {
  import opened Numbers
  import opened Seqs
  import opened Sorting

  /** The Python exceptions the modelled code lets escape. */
  datatype Error =
    | KeyError(missing: seq<string>)   // indexing by labels that do not exist
    | ValueError(column: string)       // sorting on a column label the frame repeats
    | TypeError                        // sorting a column that mixes numbers and strings
    | UnboundLocalError(name: string)  // reading a local that was never assigned

  datatype Result<T> = Ok(value: T) | Err(error: Error)

  /** A data frame: column labels and rows of cells. */
  datatype Frame = Frame(columns: seq<string>, rows: seq<seq<Cell>>)

  predicate WellFormed(f: Frame) {
    Distinct(f.columns) && forall i :: 0 <= i < |f.rows| ==> |f.rows[i]| == |f.columns|
  }

  /** Position of a label. */
  function IndexOf(labels: seq<string>, name: string): (k: nat)
    requires name in labels
    ensures k < |labels| && labels[k] == name
    ensures forall j :: 0 <= j < k ==> labels[j] != name
  {
    if labels[0] == name then 0 else 1 + IndexOf(labels[1..], name)
  }

  /** The requested labels that are not there, in request order: what a
      `KeyError` reports. */
  function Missing(names: seq<string>, labels: seq<string>): (r: seq<string>)
    ensures r == [] <==> forall n :: n in names ==> n in labels
  {
    var known := set l | l in labels;
    var r := Filter(names, n => n !in known);
    assert forall n :: n in r <==> n in names && n !in labels;
    assert r != [] ==> r[0] in r;
    r
  }

  /** The cell in column `k` of a row; NaN past the end of the row, which a
      well-formed frame never reaches. */
  function CellAt(row: seq<Cell>, k: nat): Cell {
    if k < |row| then row[k] else Number(NaN)
  }

  /** Every position holding `name`, in increasing order. */
  function LabelPositions(labels: seq<string>, name: string): (ps: seq<nat>)
    ensures forall j :: 0 <= j < |ps| ==> ps[j] < |labels| && labels[ps[j]] == name
    ensures name !in labels ==> ps == []
  {
    if |labels| == 0 then []
    else
      var n := |labels| - 1;
      LabelPositions(labels[..n], name) + if labels[n] == name then [n] else []
  }

  /** Every position holding the label is among its positions. */
  lemma {:induction false} LabelPositionsComplete(labels: seq<string>, name: string)
    ensures forall i :: 0 <= i < |labels| && labels[i] == name ==> i in LabelPositions(labels, name)
  {
    if |labels| > 0 {
      var n := |labels| - 1;
      LabelPositionsComplete(labels[..n], name);
      forall i | 0 <= i < n && labels[i] == name ensures i in LabelPositions(labels, name) {
        assert labels[..n][i] == name;
      }
    }
  }

  /** The positions of a label come in increasing order, as the columns do. */
  lemma {:induction false} LabelPositionsIncreasing(labels: seq<string>, name: string)
    ensures forall a, b :: 0 <= a < b < |LabelPositions(labels, name)| ==>
              LabelPositions(labels, name)[a] < LabelPositions(labels, name)[b]
  {
    if |labels| > 0 {
      var n := |labels| - 1;
      LabelPositionsIncreasing(labels[..n], name);
    }
  }

  /** More than one column carries the label. */
  predicate Repeated(labels: seq<string>, name: string) {
    |LabelPositions(labels, name)| > 1
  }

  /** A label that is there and not repeated sits at its one position. */
  lemma SingleLabel(labels: seq<string>, name: string)
    requires name in labels && !Repeated(labels, name)
    ensures LabelPositions(labels, name) == [IndexOf(labels, name)]
  {
    var ps := LabelPositions(labels, name);
    LabelPositionsComplete(labels, name);
    assert IndexOf(labels, name) in ps;
  }

  /** Distinct labels are never repeated. */
  lemma {:induction false} DistinctNotRepeated(labels: seq<string>, name: string)
    requires Distinct(labels)
    ensures !Repeated(labels, name)
  {
    if |labels| > 0 {
      var n := |labels| - 1;
      var front := LabelPositions(labels[..n], name);
      DistinctNotRepeated(labels[..n], name);
      if labels[n] == name {
        forall i | 0 <= i < n ensures labels[..n][i] != name {
          assert labels[i] != labels[n];
        }
        assert name !in labels[..n];
      }
    }
  }

  /** The column positions `df[names]` selects: for each requested label in
      turn, every position holding it. */
  function Positions(names: seq<string>, labels: seq<string>): (ps: seq<nat>)
    requires Missing(names, labels) == []
    ensures forall j :: 0 <= j < |ps| ==> ps[j] < |labels| && labels[ps[j]] in names
    ensures forall i :: 0 <= i < |labels| && labels[i] in names ==> i in ps
  {
    if |names| == 0 then []
    else
      assert Missing(names[1..], labels) == [] by {
        assert forall n :: n in names[1..] ==> n in names;
      }
      LabelPositionsComplete(labels, names[0]);
      LabelPositions(labels, names[0]) + Positions(names[1..], labels)
  }

  /** With distinct labels `df[names]` selects one column per request, in
      request order. */
  lemma {:induction false} PositionsDistinct(names: seq<string>, labels: seq<string>)
    requires Missing(names, labels) == [] && Distinct(labels)
    ensures |Positions(names, labels)| == |names|
    ensures forall j :: 0 <= j < |names| ==> Positions(names, labels)[j] == IndexOf(labels, names[j])
  {
    if |names| > 0 {
      var rest := names[1..];
      assert Missing(rest, labels) == [] by {
        assert forall n :: n in rest ==> n in names;
      }
      PositionsDistinct(rest, labels);
      DistinctNotRepeated(labels, names[0]);
      SingleLabel(labels, names[0]);
      var ps := Positions(names, labels);
      assert ps == [IndexOf(labels, names[0])] + Positions(rest, labels);
      forall j | 0 <= j < |names| ensures ps[j] == IndexOf(labels, names[j]) {
        if j > 0 {
          assert ps[j] == Positions(rest, labels)[j - 1] && names[j] == rest[j - 1];
        }
      }
    }
  }

  /** The labels at the given positions. */
  function LabelsAt(labels: seq<string>, ps: seq<nat>): (r: seq<string>)
    requires forall j :: 0 <= j < |ps| ==> ps[j] < |labels|
    ensures |r| == |ps| && forall j :: 0 <= j < |ps| ==> r[j] == labels[ps[j]]
  {
    seq(|ps|, j requires 0 <= j < |ps| => labels[ps[j]])
  }

  /** `df[columns]` on the rows: each row cut down to the given positions. */
  function SelectCells(rows: seq<seq<Cell>>, ps: seq<nat>): (r: seq<seq<Cell>>)
    ensures |r| == |rows|
    ensures forall i :: 0 <= i < |rows| ==> |r[i]| == |ps|
    ensures forall i, j :: 0 <= i < |rows| && 0 <= j < |ps| ==> r[i][j] == CellAt(rows[i], ps[j])
  {
    seq(|rows|, i requires 0 <= i < |rows| => seq(|ps|, j requires 0 <= j < |ps| => CellAt(rows[i], ps[j])))
  }

  /** The sort key "column `k`" of `sort_values(by=[...])`. */
  function ColumnKey(k: nat): seq<Cell> -> Cell {
    row => CellAt(row, k)
  }

  /** Sorting column `k` would compare numbers with strings. */
  predicate Mixed(rows: seq<seq<Cell>>, k: nat) {
    (exists i :: 0 <= i < |rows| && CellAt(rows[i], k).Number? && !IsNaN(CellAt(rows[i], k)))
    && (exists i :: 0 <= i < |rows| && CellAt(rows[i], k).Text?)
  }

  /** The rows `rearrange_table` keeps: `head(n)`, or `tail(n)` when
      `reverse`. */
  function KeptRows(rows: seq<seq<Cell>>, n: int, reverse: bool): seq<seq<Cell>> {
    if reverse then Tail(rows, n) else Head(rows, n)
  }

  /** `row` holds the cells of `source` at positions `ps`. */
  predicate Projects(row: seq<Cell>, source: seq<Cell>, ps: seq<nat>) {
    |row| == |ps| && forall j :: 0 <= j < |ps| ==> row[j] == CellAt(source, ps[j])
  }

  /** `row` holds the cells of one of `kept` at positions `ps`. */
  ghost predicate ProjectsSome(row: seq<Cell>, kept: seq<seq<Cell>>, ps: seq<nat>) {
    exists kr :: kr in kept && Projects(row, kr, ps)
  }

  /** Each of `rows` holds the cells of one of `kept` at positions `ps`. */
  ghost predicate ProjectedRows(rows: seq<seq<Cell>>, kept: seq<seq<Cell>>, ps: seq<nat>) {
    forall i :: 0 <= i < |rows| ==> ProjectsSome(rows[i], kept, ps)
  }

  /** `rows` is some sorted order of `kept`, cut down to positions `ps`:
      pandas does not promise an order among equal keys. */
  ghost predicate SortedSelection(kept: seq<seq<Cell>>, k: nat, desc: bool, ps: seq<nat>, rows: seq<seq<Cell>>) {
    exists sorted: seq<seq<Cell>> ::
      && multiset(sorted) == multiset(kept)
      && SortedBy(sorted, ColumnKey(k), desc)
      && rows == SelectCells(sorted, ps)
  }

  /** A sorted selection has one row per kept row, each the projection of a
      kept row, and is sorted on every shown copy of the sort column. */
  lemma SortedSelectionSpec(kept: seq<seq<Cell>>, k: nat, desc: bool, ps: seq<nat>, rows: seq<seq<Cell>>)
    requires SortedSelection(kept, k, desc, ps, rows)
    ensures |rows| == |kept|
    ensures ProjectedRows(rows, kept, ps)
    ensures forall p :: 0 <= p < |ps| && ps[p] == k ==> SortedBy(rows, ColumnKey(p), desc)
  {
    var sorted: seq<seq<Cell>> :| && multiset(sorted) == multiset(kept)
                                  && SortedBy(sorted, ColumnKey(k), desc)
                                  && rows == SelectCells(sorted, ps);
    assert |sorted| == |kept| by {
      assert |multiset(sorted)| == |multiset(kept)|;
    }
    forall i | 0 <= i < |rows| ensures ProjectsSome(rows[i], kept, ps) {
      assert sorted[i] in multiset(kept);
      assert sorted[i] in kept && Projects(rows[i], sorted[i], ps);
    }
    forall p | 0 <= p < |ps| && ps[p] == k ensures SortedBy(rows, ColumnKey(p), desc) {
      SelectedSorted(sorted, k, desc, ps, p);
    }
  }

  /** Selecting columns keeps a sort on column `k` as a sort on every
      selected copy `p` of it. */
  lemma SelectedSorted(sorted: seq<seq<Cell>>, k: nat, desc: bool, ps: seq<nat>, p: nat)
    requires SortedBy(sorted, ColumnKey(k), desc) && p < |ps| && ps[p] == k
    ensures SortedBy(SelectCells(sorted, ps), ColumnKey(p), desc)
  {
    var rows := SelectCells(sorted, ps);
    forall i, j | 0 <= i < j < |rows|
      ensures InOrder(ColumnKey(p)(rows[i]), ColumnKey(p)(rows[j]), desc)
    {
      assert ColumnKey(p)(rows[i]) == ColumnKey(k)(sorted[i]);
      assert ColumnKey(p)(rows[j]) == ColumnKey(k)(sorted[j]);
    }
  }

  /** What `rearrange_table(df, columns_to_show, order_by, how_many_rows,
      desc, reverse)` returns: the kept rows, sorted on `order_by`
      (descending iff `desc`), cut down to the columns `df[columns_to_show]`
      selects; or the exception pandas raises for an unknown sort column, a
      sort column whose label the frame repeats, a mixed-type sort column or
      an unknown display column, checked in that order. */
  ghost predicate Rearranged(df: Frame, show: seq<string>, orderBy: string, n: int,
                             desc: bool, reverse: bool, r: Result<Frame>)
  {
    var kept := KeptRows(df.rows, n, reverse);
    if orderBy !in df.columns then r == Err(KeyError([orderBy]))
    else if Repeated(df.columns, orderBy) then r == Err(ValueError(orderBy))
    else
      var k := IndexOf(df.columns, orderBy);
      if Mixed(kept, k) then r == Err(TypeError)
      else if Missing(show, df.columns) != [] then r == Err(KeyError(Missing(show, df.columns)))
      else
        var ps := Positions(show, df.columns);
        && r.Ok?
        && r.value.columns == LabelsAt(df.columns, ps)
        && SortedSelection(kept, k, desc, ps, r.value.rows)
  }

  /** What a successful `rearrange_table` guarantees: the sort column exists
      once and the shown columns exist; the result carries exactly the
      requested labels, in request order when the frame's labels are
      distinct; `min(n, len)` rows for a non-negative `n`; each row the
      projection of one of the head (or tail) rows; the rows sorted on every
      shown copy of the sort column; and a well-formed frame stays
      well-formed when no label is requested twice. */
  lemma RearrangedSpec(df: Frame, show: seq<string>, orderBy: string, n: int,
                       desc: bool, reverse: bool, r: Result<Frame>)
    requires Rearranged(df, show, orderBy, n, desc, reverse, r)
    requires r.Ok?
    ensures orderBy in df.columns && !Repeated(df.columns, orderBy)
    ensures forall c :: c in show ==> c in df.columns
    ensures forall c :: c in r.value.columns <==> c in show
    ensures Distinct(df.columns) ==> r.value.columns == show
    ensures n >= 0 ==> |r.value.rows| == if n <= |df.rows| then n else |df.rows|
    ensures ProjectedRows(r.value.rows, KeptRows(df.rows, n, reverse), Positions(show, df.columns))
    ensures forall p :: 0 <= p < |r.value.columns| && r.value.columns[p] == orderBy ==>
              SortedBy(r.value.rows, ColumnKey(p), desc)
    ensures WellFormed(df) && Distinct(show) ==> WellFormed(r.value)
  {
    var k := IndexOf(df.columns, orderBy);
    var ps := Positions(show, df.columns);
    RearrangedRows(df, show, orderBy, n, desc, reverse, r);
    RearrangedColumns(df.columns, show);
    SortColumnCopies(df.columns, show, orderBy);
    forall p | 0 <= p < |r.value.columns| && r.value.columns[p] == orderBy
      ensures SortedBy(r.value.rows, ColumnKey(p), desc)
    {
      assert df.columns[ps[p]] == orderBy;
    }
  }

  /** The rows of a successful `rearrange_table`: as many as the head (or
      tail), each a projection of one of those, sorted on every selected
      copy of the sort column. */
  lemma RearrangedRows(df: Frame, show: seq<string>, orderBy: string, n: int,
                       desc: bool, reverse: bool, r: Result<Frame>)
    requires Rearranged(df, show, orderBy, n, desc, reverse, r)
    requires r.Ok?
    ensures orderBy in df.columns && Missing(show, df.columns) == []
    ensures n >= 0 ==> |r.value.rows| == if n <= |df.rows| then n else |df.rows|
    ensures ProjectedRows(r.value.rows, KeptRows(df.rows, n, reverse), Positions(show, df.columns))
    ensures forall p :: 0 <= p < |Positions(show, df.columns)| && Positions(show, df.columns)[p] == IndexOf(df.columns, orderBy) ==>
              SortedBy(r.value.rows, ColumnKey(p), desc)
  {
    var kept := KeptRows(df.rows, n, reverse);
    var k := IndexOf(df.columns, orderBy);
    var ps := Positions(show, df.columns);
    assert SortedSelection(kept, k, desc, ps, r.value.rows);
    SortedSelectionSpec(kept, k, desc, ps, r.value.rows);
  }

  /** Every selected copy of a column label the frame holds once is that
      column. */
  lemma SortColumnCopies(labels: seq<string>, names: seq<string>, name: string)
    requires Missing(names, labels) == [] && name in labels && !Repeated(labels, name)
    ensures forall p :: 0 <= p < |Positions(names, labels)| && labels[Positions(names, labels)[p]] == name ==>
              Positions(names, labels)[p] == IndexOf(labels, name)
  {
    var ps := Positions(names, labels);
    SingleLabel(labels, name);
    LabelPositionsComplete(labels, name);
    forall p | 0 <= p < |ps| && labels[ps[p]] == name ensures ps[p] == IndexOf(labels, name) {
      assert ps[p] in LabelPositions(labels, name);
    }
  }

  /** The labels `df[names]` selects: each one requested, every requested
      one among them, and, for distinct labels, the request itself. */
  lemma RearrangedColumns(labels: seq<string>, names: seq<string>)
    requires Missing(names, labels) == []
    ensures forall c :: c in LabelsAt(labels, Positions(names, labels)) <==> c in names
    ensures Distinct(labels) ==> LabelsAt(labels, Positions(names, labels)) == names
  {
    var ps := Positions(names, labels);
    var cols := LabelsAt(labels, ps);
    forall c | c in names ensures c in cols {
      var i := IndexOf(labels, c);
      var j :| 0 <= j < |ps| && ps[j] == i;
      assert cols[j] == c;
    }
    if Distinct(labels) {
      PositionsDistinct(names, labels);
    }
  }

  /** What both `find_similar_games` return: a two-column frame of (game,
      similarity score) pairs, or a message string. */
  datatype SimilarGames = Found(games: seq<(string, real)>) | NotFound(message: string)

  const NotInDatabase := "Game not in database"

  /** Sort key of a (game, similarity) pair. */
  function SimilarityKey(p: (string, real)): Cell {
    Number(Real(p.1))
  }

  /** On similarity pairs the sort order is the order of the similarities. */
  lemma SimilarityOrder(p: (string, real), q: (string, real), desc: bool)
    ensures InOrder(SimilarityKey(p), SimilarityKey(q), desc) <==> if desc then p.1 >= q.1 else p.1 <= q.1
  {
  }

  /** The item-similarity matrix: row labels, column labels and a real
      similarity per cell (NaN cells are not modelled). */
  datatype Matrix = Matrix(index: seq<string>, columns: seq<string>, values: seq<seq<real>>)

  predicate WellFormedMatrix(m: Matrix) {
    && |m.values| == |m.index|
    && (forall i :: 0 <= i < |m.values| ==> |m.values[i]| == |m.columns|)
    && Distinct(m.index)
    && Distinct(m.columns)
  }

  /** The similarity of row `row` to the column labelled `name`. */
  function Similarity(m: Matrix, row: nat, name: string): real
    requires WellFormedMatrix(m) && row < |m.index| && name in m.columns
  {
    m.values[row][IndexOf(m.columns, name)]
  }

  /** `ism[name]` as (row label, similarity) pairs, in row order. */
  function Column(m: Matrix, name: string): (c: seq<(string, real)>)
    requires WellFormedMatrix(m) && name in m.columns
    ensures |c| == |m.index|
    ensures forall i :: 0 <= i < |c| ==> c[i] == (m.index[i], Similarity(m, i, name))
  {
    seq(|m.index|, i requires 0 <= i < |m.index| => (m.index[i], Similarity(m, i, name)))
  }

  /** `ism[names]`: the similarity rows restricted to the given columns, in
      the given order (repeats allowed), or the `KeyError` pandas raises for
      labels that are not columns. */
  function SelectColumns(m: Matrix, names: seq<string>): (r: Result<seq<seq<real>>>)
    requires WellFormedMatrix(m)
    ensures r.Err? <==> exists n :: n in names && n !in m.columns
    ensures r.Err? ==> r.error == KeyError(Missing(names, m.columns))
    ensures r.Ok? ==> |r.value| == |m.index|
    ensures r.Ok? ==> forall i :: 0 <= i < |m.index| ==> |r.value[i]| == |names|
    ensures r.Ok? ==> forall i, j :: 0 <= i < |m.index| && 0 <= j < |names| ==>
                        r.value[i][j] == Similarity(m, i, names[j])
  {
    if Missing(names, m.columns) != [] then Err(KeyError(Missing(names, m.columns)))
    else Ok(seq(|m.index|, i requires 0 <= i < |m.index| =>
              seq(|names|, j requires 0 <= j < |names| => Similarity(m, i, names[j]))))
  }
}
