/**
  The part of a pandas `DataFrame` that the modelled code relies on: named
  columns of equal length, `head(n)`, `tail(n)`, `shape` and selection of a
  list of columns by name (`df[names]`).
 */
module Frames {
  import opened Wrappers

  datatype Column<T> = Column(name: string, values: seq<T>)

  /** `rows` is the length of the index; every column has one value per row. */
  datatype Frame<T> = Frame(rows: nat, columns: seq<Column<T>>)

  predicate WellFormed<T>(f: Frame<T>) {
    forall i :: 0 <= i < |f.columns| ==> |f.columns[i].values| == f.rows
  }

  type Table<T> = f: Frame<T> | WellFormed(f) witness Frame(0, [])

  function Names<T>(cols: seq<Column<T>>): (names: seq<string>)
    ensures |names| == |cols|
    ensures forall i :: 0 <= i < |cols| ==> names[i] == cols[i].name
  {
    if cols == [] then [] else [cols[0].name] + Names(cols[1..])
  }

  /** `df.head(n)`: the first `n` rows, or all of them when there are fewer. */
  function Head<T>(t: Table<T>, n: nat): (h: Table<T>)
    ensures h.rows == if n < t.rows then n else t.rows
    ensures Names(h.columns) == Names(t.columns)
    ensures forall i :: 0 <= i < |t.columns| ==> h.columns[i].values <= t.columns[i].values
  {
    var k := if n < t.rows then n else t.rows;
    Frame(k, seq(|t.columns|, i requires 0 <= i < |t.columns| =>
      Column(t.columns[i].name, t.columns[i].values[..k])))
  }

  /** `df.tail(n)`: the last `n` rows, or all of them when there are fewer. */
  function Tail<T>(t: Table<T>, n: nat): (h: Table<T>)
    ensures h.rows == if n < t.rows then n else t.rows
    ensures Names(h.columns) == Names(t.columns)
    ensures forall i :: 0 <= i < |t.columns| ==>
      t.columns[i].values == t.columns[i].values[..t.rows - h.rows] + h.columns[i].values
  {
    var k := if n < t.rows then n else t.rows;
    Frame(k, seq(|t.columns|, i requires 0 <= i < |t.columns| =>
      Column(t.columns[i].name, t.columns[i].values[t.rows - k..])))
  }

  /** Asking for at least as many rows as there are shows the whole frame. */
  lemma {:induction false} HeadTailWhole<T>(t: Table<T>, n: nat)
    requires t.rows <= n
    ensures Head(t, n) == t && Tail(t, n) == t
  {
    var h, l := Head(t, n), Tail(t, n);
    forall i | 0 <= i < |t.columns| ensures h.columns[i] == t.columns[i] == l.columns[i] {
      assert t.columns[i].values[..t.rows] == t.columns[i].values == t.columns[i].values[0..];
    }
    assert h.columns == t.columns;
    assert l.columns == t.columns;
  }

  predicate HasColumn<T>(cols: seq<Column<T>>, name: string) {
    exists i :: 0 <= i < |cols| && cols[i].name == name
  }

  /** The first column called `name`. */
  function Find<T>(cols: seq<Column<T>>, name: string): (r: Option<Column<T>>)
    ensures r.Some? <==> HasColumn(cols, name)
    ensures r.Some? ==> r.value.name == name && exists i :: 0 <= i < |cols| && cols[i] == r.value
  {
    if cols == [] then None
    else if cols[0].name == name then Some(cols[0])
    else
      var r := Find(cols[1..], name);
      assert HasColumn(cols, name) ==> HasColumn(cols[1..], name) by {
        if HasColumn(cols, name) {
          var i :| 0 <= i < |cols| && cols[i].name == name;
          assert cols[1..][i - 1] == cols[i];
        }
      }
      r
  }

  /** The requested names that are not columns of the frame, in request order. */
  function Missing<T>(cols: seq<Column<T>>, names: seq<string>): (missing: seq<string>)
    ensures forall n :: n in missing <==> n in names && !HasColumn(cols, n)
  {
    if names == [] then []
    else (if HasColumn(cols, names[0]) then [] else [names[0]]) + Missing(cols, names[1..])
  }

  /**
    `df[names]`: the named columns in the order requested, or a `KeyError`
    listing every requested name the frame lacks.
   */
  function Select<T>(t: Table<T>, names: seq<string>): (r: Result<Table<T>, seq<string>>)
    ensures r.Success? <==> forall n :: n in names ==> HasColumn(t.columns, n)
    ensures r.Failure? ==> r.error != [] && r.error == Missing(t.columns, names)
    ensures r.Success? ==> r.value.rows == t.rows && Names(r.value.columns) == names
    ensures r.Success? ==> forall i :: 0 <= i < |names| ==>
      Some(r.value.columns[i]) == Find(t.columns, names[i])
  {
    var missing := Missing(t.columns, names);
    if missing != [] then
      assert missing[0] in missing;
      Failure(missing)
    else
      var cols := seq(|names|, i requires 0 <= i < |names| => Find(t.columns, names[i]).value);
      assert WellFormed(Frame(t.rows, cols)) by {
        forall i | 0 <= i < |cols| ensures |cols[i].values| == t.rows {
          var k :| 0 <= k < |t.columns| && t.columns[k] == cols[i];
        }
      }
      Success(Frame(t.rows, cols))
  }
}
