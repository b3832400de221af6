/**
 * The lookup loader (script.py:37-45): the rows of the lookup CSV, already
 * split into columns, become a map from (destination port, protocol name) to
 * tag. The first row is a header and is skipped without being looked at.
 */
module LookupTables {
  import opened Wrappers

  /** A lookup key: (destination port, protocol name), both compared as exact text. */
  type Key = (string, string)

  type Lookup = map<Key, string>

  /** Why loading fails: the file has no row at all, or a data row has fewer than three columns. */
  datatype LoadError = MissingHeader | ShortRow(index: nat)

  /** Every data row has a port, a protocol and a tag column. */
  ghost predicate WellFormed(data: seq<seq<string>>) {
    forall i :: 0 <= i < |data| ==> |data[i]| >= 3
  }

  /** `index` is the first data row of `rows` (row 0 is the header) with fewer than three columns. */
  ghost predicate FirstShortRow(rows: seq<seq<string>>, index: nat) {
    1 <= index < |rows| && |rows[index]| < 3 && WellFormed(rows[1..index])
  }

  function RowKey(row: seq<string>): Key
    requires |row| >= 2
  {
    (row[0], row[1])
  }

  /** The table the data rows describe when they are read in order, a later row overwriting an earlier one. */
  function LookupOf(data: seq<seq<string>>): Lookup
    requires WellFormed(data)
  {
    if data == [] then map[]
    else
      var last := data[|data| - 1];
      LookupOf(data[..|data| - 1])[RowKey(last) := last[2]]
  }

  /**
   * `loadLookupTable`: skip the header, then store each row's tag under its
   * key. A file with no header row fails (`next(reader)` raises), and so does
   * the first row that has fewer than three columns (`row[k]` raises).
   */
  method LoadLookupTable(rows: seq<seq<string>>) returns (r: Result<Lookup, LoadError>)
    ensures rows == [] ==> r == Failure(MissingHeader)
    ensures rows != [] && WellFormed(rows[1..]) ==> r == Success(LookupOf(rows[1..]))
    ensures rows != [] && !WellFormed(rows[1..]) ==> r.Failure? && r.error.ShortRow? && FirstShortRow(rows, r.error.index)
  {
    if |rows| == 0 {
      return Failure(MissingHeader);
    }
    var lookup: Lookup := map[];
    for i := 1 to |rows|
      invariant WellFormed(rows[1..i])
      invariant lookup == LookupOf(rows[1..i])
    {
      var row := rows[i];
      if |row| < 3 {
        assert rows[1..][i - 1] == row;
        return Failure(ShortRow(i));
      }
      assert rows[1..i + 1] == rows[1..i] + [row];
      lookup := lookup[(row[0], row[1]) := row[2]];
    }
    assert rows[1..|rows|] == rows[1..];
    return Success(lookup);
  }

  /** A key is in the table exactly when some data row carries it. */
  lemma {:induction false} LookupKeys(data: seq<seq<string>>)
    requires WellFormed(data)
    ensures forall k :: k in LookupOf(data) <==> exists i :: 0 <= i < |data| && RowKey(data[i]) == k
  {
    if data != [] {
      var init := data[..|data| - 1];
      LookupKeys(init);
      forall k ensures k in LookupOf(data) <==> exists i :: 0 <= i < |data| && RowKey(data[i]) == k {
        if k in LookupOf(init) {
          var i :| 0 <= i < |init| && RowKey(init[i]) == k;
          assert RowKey(data[i]) == k;
        }
        if exists i :: 0 <= i < |data| && RowKey(data[i]) == k {
          var i :| 0 <= i < |data| && RowKey(data[i]) == k;
          if i < |init| {
            assert RowKey(init[i]) == k;
          }
        }
      }
    }
  }

  /** The last row with a given key decides its tag: a later row overwrites an earlier one. */
  lemma {:induction false} LookupLastWins(data: seq<seq<string>>, i: nat)
    requires WellFormed(data)
    requires i < |data|
    requires forall j :: i < j < |data| ==> RowKey(data[j]) != RowKey(data[i])
    ensures RowKey(data[i]) in LookupOf(data)
    ensures LookupOf(data)[RowKey(data[i])] == data[i][2]
  {
    if i < |data| - 1 {
      var init := data[..|data| - 1];
      assert init[i] == data[i];
      LookupLastWins(init, i);
    }
  }

  /** Columns after the third are ignored. */
  lemma {:induction false} LookupIgnoresExtraColumns(data: seq<seq<string>>, data': seq<seq<string>>)
    requires WellFormed(data) && WellFormed(data')
    requires |data| == |data'|
    requires forall i :: 0 <= i < |data| ==> data[i][..3] == data'[i][..3]
    ensures LookupOf(data) == LookupOf(data')
  {
    if data != [] {
      var n := |data|;
      assert data[n - 1][0] == data[n - 1][..3][0] && data'[n - 1][0] == data'[n - 1][..3][0];
      assert data[n - 1][1] == data[n - 1][..3][1] && data'[n - 1][1] == data'[n - 1][..3][1];
      assert data[n - 1][2] == data[n - 1][..3][2] && data'[n - 1][2] == data'[n - 1][..3][2];
      LookupIgnoresExtraColumns(data[..n - 1], data'[..n - 1]);
    }
  }
}
