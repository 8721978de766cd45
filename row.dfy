/**
 * Row: one data record of the spreadsheet, a mutable map from column name
 * to the cell's displayed text, held in a HashMap object that the row owns
 * and that getColumns / getColumn hand out by reference.
 */
module Rows {
  import opened Wrappers
  import opened Collections

  /** The contents of a row as a value: column name (possibly null) to text. */
  type RowMap = map<Key, string>

  class Row {
    /** The live map; getColumns and getColumn return this very object. */
    var columns: HashMap

    /** The row's current contents. */
    function Contents(): RowMap
      reads this, columns
    {
      columns.entries
    }

    /** new Row(): a fresh, empty map, so a new row is blank. */
    constructor ()
      ensures fresh(columns)
      ensures Contents() == map[]
    {
      columns := new HashMap();
    }

    /** getColumns(): the internal map itself, not a copy. */
    method GetColumns() returns (m: HashMap)
      ensures m == columns
    {
      m := columns;
    }

    /** getColumn(): the same internal map as getColumns. */
    method GetColumn() returns (m: HashMap)
      ensures m == columns
    {
      m := columns;
    }

    /**
     * setColumns(m): the row now holds a fresh copy of m, so later updates
     * to m do not reach the row and the previous map is no longer the row's.
     */
    method SetColumns(m: HashMap)
      modifies this
      ensures fresh(columns)
      ensures Contents() == old(m.entries)
    {
      columns := new HashMap.Copy(m);
    }

    /** column(key): the value under key, or null when key was never set. */
    method Column(key: Key) returns (v: Option<string>)
      ensures v == Lookup(Contents(), key)
    {
      v := columns.Get(key);
    }

    /** setColumn(name, value): put into the live map; no other key changes. */
    method SetColumn(name: Key, value: string)
      modifies columns
      ensures Contents() == old(Contents())[name := value]
      ensures |Contents()| == |old(Contents())| + (if name in old(Contents()) then 0 else 1)
    {
      columns.Put(name, value);
    }

    /** isBlank(): true exactly when no column is set. */
    method IsBlank() returns (b: bool)
      ensures b <==> Contents() == map[]
    {
      b := columns.IsEmpty();
    }
  }

  /** A fresh row is blank, and after one setColumn it holds exactly that column. */
  method NewRowIsBlank(name: Key, value: string) returns (before: bool, after: bool, got: Option<string>)
    ensures before && !after
    ensures got == Some(value)
  {
    var row := new Row();
    before := row.IsBlank();
    row.SetColumn(name, value);
    after := row.IsBlank();
    got := row.Column(name);
  }

  /** setColumn on a name already present overwrites it and keeps the number of columns. */
  method OverwriteKeepsSize(row: Row, name: Key, first: string, second: string, other: Key)
    returns (got: Option<string>)
    modifies row.columns
    ensures got == Some(second)
    ensures |row.Contents()| == |old(row.Contents())| + (if name in old(row.Contents()) then 0 else 1)
    ensures other != name ==> Lookup(row.Contents(), other) == Lookup(old(row.Contents()), other)
  {
    row.SetColumn(name, first);
    row.SetColumn(name, second);
    got := row.Column(name);
  }

  /** setColumns keeps a copy: a put into the argument afterwards is not seen by the row. */
  method SetColumnsCopies(row: Row, m: HashMap, k: Key, v: string) returns (got: Option<string>)
    modifies row, m
    ensures row.Contents() == old(m.entries)
    ensures m.entries == old(m.entries)[k := v]
    ensures got == Lookup(old(m.entries), k)
  {
    row.SetColumns(m);
    m.Put(k, v);
    got := row.Column(k);
  }

  /** A put through the map returned by getColumns is seen by column and isBlank. */
  method GetColumnsIsLive(row: Row, k: Key, v: string) returns (got: Option<string>, blank: bool)
    modifies row.columns
    ensures got == Some(v) && !blank
    ensures row.Contents() == old(row.Contents())[k := v]
  {
    var live := row.GetColumns();
    live.Put(k, v);
    got := row.Column(k);
    blank := row.IsBlank();
  }
}
