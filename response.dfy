/**
 * One decoded server response (a "page") and the rows it contributes:
 * each positional data row zipped against the column names of the same page.
 */
module Response {
  import opened Wrappers
  import opened PhpArray
  import opened SeqFacts

  /** A JSON value as json_decode returns it; the client never inspects it. */
  datatype Value =
    | JNull
    | JBool(b: bool)
    | JNumber(n: real)
    | JString(s: string)
    | JArray(items: seq<Value>)
    | JObject(members: seq<(string, Value)>)

  /** A column descriptor; only its `name` is read. */
  datatype Column = Column(name: Option<string>)

  /** The `stats` object; only its `state` is read. */
  datatype Stats = Stats(state: Option<string>)

  /**
   * The fields of a response that the client reads. None stands for a field
   * that is absent or null, which `isset` treats alike.
   */
  datatype Page = Page(
    nextUri: Option<string>,
    infoUri: Option<string>,
    partialCancelUri: Option<string>,
    stats: Option<Stats>,
    columns: Option<seq<Column>>,
    data: Option<seq<seq<Value>>>)

  /**
   * A body that json_decode cannot decode (null) or that is not an object:
   * every `isset` on it is false.
   */
  const EmptyPage := Page(None, None, None, None, None, None)

  /** A result row: column name to value, in column order. */
  type Row = Entries<Value>

  /**
   * The key `$columns[$key]->{'name'}` for position k. A position past the
   * last column, or a column without a name, reads as null, which PHP turns
   * into the key "".
   */
  function KeyAt(columns: seq<Column>, k: nat): string
  {
    if k < |columns| && columns[k].name.Some? then columns[k].name.value else ""
  }

  /** The row built from the positional values of one data row. */
  function ZipRow(columns: seq<Column>, values: seq<Value>): (row: Row)
    ensures DistinctKeys(row)
    ensures |row| <= |values|
    decreases |values|
  {
    if values == [] then []
    else
      var n := |values| - 1;
      var front := ZipRow(columns, values[..n]);
      PutKeys(front, KeyAt(columns, n), values[n]);
      Put(front, KeyAt(columns, n), values[n])
  }

  /** The rows built from a page's data rows, in received order. */
  function ZipRows(columns: seq<Column>, rows: seq<seq<Value>>): seq<Row>
    decreases |rows|
  {
    if rows == [] then []
    else ZipRows(columns, rows[..|rows| - 1]) + [ZipRow(columns, rows[|rows| - 1])]
  }

  /** The rows a page contributes: none unless it carries both `data` and `columns`. */
  function PageRows(p: Page): seq<Row>
  {
    if p.data.Some? && p.columns.Some? then ZipRows(p.columns.value, p.data.value) else []
  }

  /** The rows a run of pages contributes, page after page. */
  function AllRows(pages: seq<Page>): seq<Row>
    decreases |pages|
  {
    if pages == [] then []
    else AllRows(pages[..|pages| - 1]) + PageRows(pages[|pages| - 1])
  }

  /** One row per data row, in received order, each zipped on its own. */
  lemma {:induction false} ZipRowsAt(columns: seq<Column>, rows: seq<seq<Value>>, i: nat)
    requires i < |rows|
    ensures |ZipRows(columns, rows)| == |rows|
    ensures ZipRows(columns, rows)[i] == ZipRow(columns, rows[i])
    decreases |rows|
  {
    var n := |rows| - 1;
    var front := rows[..n];
    assert ZipRows(columns, rows) == ZipRows(columns, front) + [ZipRow(columns, rows[n])];
    if i < n {
      ZipRowsAt(columns, front, i);
      assert front[i] == rows[i];
    } else if n > 0 {
      ZipRowsAt(columns, front, 0);
    }
  }

  /** The keys of a zipped row are exactly the keys of its positions. */
  lemma {:induction false} ZipRowKeys(columns: seq<Column>, values: seq<Value>, key: string)
    ensures key in Keys(ZipRow(columns, values)) <==>
            exists j :: 0 <= j < |values| && KeyAt(columns, j) == key
    decreases |values|
  {
    if values != [] {
      var n := |values| - 1;
      var front := values[..n];
      var r := ZipRow(columns, front);
      assert ZipRow(columns, values) == Put(r, KeyAt(columns, n), values[n]);
      ZipRowKeys(columns, front, key);
      PutHasKey(r, KeyAt(columns, n), values[n], key);
      if key in Keys(ZipRow(columns, values)) {
        if key != KeyAt(columns, n) {
          var j :| 0 <= j < n && KeyAt(columns, j) == key;
        }
      } else {
        forall j | 0 <= j < |values|
          ensures KeyAt(columns, j) != key
        {
          if j < n {
            assert !(0 <= j < |front| && KeyAt(columns, j) == key);
          }
        }
      }
    }
  }

  /**
   * The value under a position's key is that position's value, provided no
   * later position has the same key (a duplicate name overwrites).
   */
  lemma {:induction false} ZipRowLookup(columns: seq<Column>, values: seq<Value>, j: nat)
    requires j < |values|
    requires forall j' :: j < j' < |values| ==> KeyAt(columns, j') != KeyAt(columns, j)
    ensures Lookup(ZipRow(columns, values), KeyAt(columns, j)) == Some(values[j])
    decreases |values|
  {
    var n := |values| - 1;
    var front := values[..n];
    assert ZipRow(columns, values) == Put(ZipRow(columns, front), KeyAt(columns, n), values[n]);
    if j < n {
      assert front[j] == values[j];
      ZipRowLookup(columns, front, j);
      PutLookupOther(ZipRow(columns, front), KeyAt(columns, n), values[n], KeyAt(columns, j));
    }
  }

  /** The k-th value under the k-th column's key, position by position. */
  function Positional(columns: seq<Column>, values: seq<Value>): Row
  {
    seq(|values|, k requires 0 <= k < |values| => (KeyAt(columns, k), values[k]))
  }

  lemma PositionalLast(columns: seq<Column>, values: seq<Value>)
    requires values != []
    ensures Positional(columns, values)
         == Positional(columns, values[..|values| - 1]) + [(KeyAt(columns, |values| - 1), values[|values| - 1])]
  {
    var n := |values| - 1;
    var whole, front := Positional(columns, values), Positional(columns, values[..n]);
    assert forall k :: 0 <= k < n ==> whole[k] == front[k];
  }

  /**
   * With pairwise distinct keys the row is the positional zip itself: one
   * entry per value, in order, the k-th value under the k-th column's name.
   */
  lemma {:induction false} ZipRowPositional(columns: seq<Column>, values: seq<Value>)
    requires forall i, j :: 0 <= i < j < |values| ==> KeyAt(columns, i) != KeyAt(columns, j)
    ensures ZipRow(columns, values) == Positional(columns, values)
    decreases |values|
  {
    if values != [] {
      var n := |values| - 1;
      var front := values[..n];
      var r := ZipRow(columns, front);
      var key := KeyAt(columns, n);
      assert ZipRow(columns, values) == r + [(key, values[n])] by {
        assert ZipRow(columns, values) == Put(r, key, values[n]);
        assert key !in Keys(r) by {
          ZipRowKeys(columns, front, key);
          forall j | 0 <= j < |front|
            ensures KeyAt(columns, j) != key
          {
            assert 0 <= j < n < |values|;
          }
        }
        PutKeys(r, key, values[n]);
      }
      assert r == Positional(columns, front) by {
        ZipRowPositional(columns, front);
      }
      PositionalLast(columns, values);
    }
  }

  /** Rows from a run of pages split anywhere are the rows of the two parts, in order. */
  lemma {:induction false} AllRowsAppend(a: seq<Page>, b: seq<Page>)
    ensures AllRows(a + b) == AllRows(a) + AllRows(b)
    decreases |b|
  {
    if b != [] {
      var n := |b| - 1;
      AllRowsAppend(a, b[..n]);
      AppendLast(a, b);
    } else {
      AppendAssoc(a, [], []);
    }
  }

  /** Rows from data split anywhere are the rows of the two parts, in order. */
  lemma {:induction false} ZipRowsAppend(columns: seq<Column>, a: seq<seq<Value>>, b: seq<seq<Value>>)
    ensures ZipRows(columns, a + b) == ZipRows(columns, a) + ZipRows(columns, b)
    decreases |b|
  {
    if b != [] {
      var n := |b| - 1;
      ZipRowsAppend(columns, a, b[..n]);
      AppendLast(a, b);
    } else {
      AppendAssoc(a, [], []);
      AppendAssoc(ZipRows(columns, a), [], []);
    }
  }

  /**
   * A page whose data rows are split over two pages with the same columns
   * contributes the same rows, in the same order.
   */
  lemma SplitPageRows(p: Page, a: seq<seq<Value>>, b: seq<seq<Value>>)
    requires p.columns.Some? && p.data == Some(a + b)
    ensures AllRows([p]) == AllRows([p.(data := Some(a)), p.(data := Some(b))])
  {
    var p1, p2 := p.(data := Some(a)), p.(data := Some(b));
    ZipRowsAppend(p.columns.value, a, b);
    assert PageRows(p) == PageRows(p1) + PageRows(p2);
    assert [p][..0] == [] && [p1][..0] == [] && [p1, p2][..1] == [p1];
    assert AllRows([p]) == PageRows(p);
    assert AllRows([p1]) == PageRows(p1);
    assert AllRows([p1, p2]) == AllRows([p1]) + PageRows(p2);
  }

  /** Rows need `columns` on the same page: a page with data but no columns adds nothing. */
  lemma NoColumnsNoRows(p: Page)
    requires p.columns.None?
    ensures PageRows(p) == []
  {
  }

  /**
   * A column name repeated at positions i < j, and not after j: the row holds
   * that name exactly once, with the value at position j.
   */
  lemma RepeatedColumnOnce(columns: seq<Column>, values: seq<Value>, i: nat, j: nat)
    requires i < j < |values| && KeyAt(columns, i) == KeyAt(columns, j)
    requires forall j' :: j < j' < |values| ==> KeyAt(columns, j') != KeyAt(columns, j)
    ensures exists p :: 0 <= p < |ZipRow(columns, values)| && ZipRow(columns, values)[p] == (KeyAt(columns, i), values[j])
    ensures forall p, q :: 0 <= p < q < |ZipRow(columns, values)| ==>
              ZipRow(columns, values)[p].0 != KeyAt(columns, i) || ZipRow(columns, values)[q].0 != KeyAt(columns, i)
  {
    ZipRowLookup(columns, values, j);
    LookupAt(ZipRow(columns, values), KeyAt(columns, j), values[j]);
  }

  /** A repeated column name: the later value overwrites, at the first name's position. */
  lemma DuplicateColumnOverwrites(name: string, x: Value, y: Value)
    ensures ZipRow([Column(Some(name)), Column(Some(name))], [x, y]) == [(name, y)]
  {
    var cols := [Column(Some(name)), Column(Some(name))];
    assert [x, y][..1] == [x] && [x][..0] == [];
    assert ZipRow(cols, [x]) == [(name, x)];
  }

}
