/**
  `DataFrameInspector`: on construction it shows a frame's first and last
  five rows and its shape, and searches for a primary key, the first column
  whose values are pairwise distinct. The frame is a `const` field, so no
  member can change it.
 */
module DfInspect {
  import opened Wrappers
  import opened Frames

  /** pandas' `Series.is_unique`: no value occurs twice. */
  predicate Unique<T(==)>(values: seq<T>) {
    forall i, j :: 0 <= i < j < |values| ==> values[i] != values[j]
  }

  class DataFrameInspector<T(==)> {
    const df: Table<T>

    /** Stores the frame, then runs the read-only reports in the source's order. */
    constructor (df: Table<T>)
      ensures this.df == df
    {
      this.df := df;
      new;
      var first := DataFrameHead(5);
      var last := DataFrameTail(5);
      var rows, cols := DataFrameShape();
      var key := IdentifyPrimaryKey();
    }

    /** The rows `_get_dataframe_head` shows. */
    method DataFrameHead(n: nat) returns (shown: Table<T>)
      ensures shown == Head(df, n)
    {
      shown := Head(df, n);
    }

    /** The rows `_get_dataframe_tail` shows. */
    method DataFrameTail(n: nat) returns (shown: Table<T>)
      ensures shown == Tail(df, n)
    {
      shown := Tail(df, n);
    }

    /** `df.shape`: the number of rows and of columns. */
    method DataFrameShape() returns (rows: nat, cols: nat)
      ensures rows == df.rows && cols == |df.columns|
      ensures forall i :: 0 <= i < cols ==> |df.columns[i].values| == rows
    {
      rows, cols := df.rows, |df.columns|;
    }

    /**
      The name of the first column whose values are pairwise distinct, every
      column before it holding a duplicate; `None` when no column qualifies,
      which includes a frame without columns.
     */
    method IdentifyPrimaryKey() returns (key: Option<string>)
      ensures key.None? <==> forall i :: 0 <= i < |df.columns| ==> !Unique(df.columns[i].values)
      ensures key.Some? ==>
        exists i :: 0 <= i < |df.columns| && df.columns[i].name == key.value &&
          Unique(df.columns[i].values) && forall j :: 0 <= j < i ==> !Unique(df.columns[j].values)
    {
      var i := 0;
      while i < |df.columns|
        invariant 0 <= i <= |df.columns|
        invariant forall j :: 0 <= j < i ==> !Unique(df.columns[j].values)
      {
        if Unique(df.columns[i].values) {
          return Some(df.columns[i].name);
        }
        i := i + 1;
      }
      return None;
    }
  }
}
