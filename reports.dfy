/**
 * The driver (script.py:94-123): load the lookup table, aggregate the flow
 * log, and turn both count dictionaries into report rows, one row per entry in
 * the dictionary's insertion order.
 */
module Reports {
  import opened Wrappers
  import opened OrderedDicts
  import opened LookupTables
  import opened FlowLogs

  /** A CSV cell: a text value, or a count (which the CSV writer prints in decimal). */
  datatype Cell = Text(text: string) | Number(count: int)

  type Row = seq<Cell>

  /** The rows of the tag report: one `[tag, count]` row per entry, in order. */
  ghost predicate IsTagTable(rows: seq<Row>, tagCounts: Dict<string, int>) {
    && |rows| == |tagCounts|
    && forall i :: 0 <= i < |rows| ==> rows[i] == [Text(tagCounts[i].0), Number(tagCounts[i].1)]
  }

  /** The rows of the port/protocol report: one `[port, protocol, count]` row per entry, in order. */
  ghost predicate IsPortProtocolTable(rows: seq<Row>, keyCounts: Dict<Key, int>) {
    && |rows| == |keyCounts|
    && forall i :: 0 <= i < |rows| ==>
         rows[i] == [Text(keyCounts[i].0.0), Text(keyCounts[i].0.1), Number(keyCounts[i].1)]
  }

  /** The count in the last column of a row. */
  function LastCount(row: Row): int {
    if row != [] && row[|row| - 1].Number? then row[|row| - 1].count else 0
  }

  /** The sum of the count column of a report. */
  function CountTotal(rows: seq<Row>): int {
    if rows == [] then 0 else LastCount(rows[0]) + CountTotal(rows[1..])
  }

  /** Building `tagRows`: for each tag in iteration order, append `[tag, tagCounts[tag]]`. */
  method TagRows(tagCounts: Dict<string, int>) returns (rows: seq<Row>)
    requires DistinctKeys(tagCounts)
    ensures IsTagTable(rows, tagCounts)
  {
    rows := [];
    var tags := Keys(tagCounts);
    for i := 0 to |tags|
      invariant |rows| == i
      invariant forall j :: 0 <= j < i ==> rows[j] == [Text(tagCounts[j].0), Number(tagCounts[j].1)]
    {
      KeysAt(tagCounts, i);
      var tag := tags[i];
      DistinctGet(tagCounts, i);
      rows := rows + [[Text(tag), Number(Get(tagCounts, tag).value)]];
    }
  }

  /** Building `portProtocolRows`: for each key in iteration order, append `[port, protocol, keyCounts[key]]`. */
  method PortProtocolRows(keyCounts: Dict<Key, int>) returns (rows: seq<Row>)
    requires DistinctKeys(keyCounts)
    ensures IsPortProtocolTable(rows, keyCounts)
  {
    rows := [];
    var keys := Keys(keyCounts);
    for i := 0 to |keys|
      invariant |rows| == i
      invariant forall j :: 0 <= j < i ==>
        rows[j] == [Text(keyCounts[j].0.0), Text(keyCounts[j].0.1), Number(keyCounts[j].1)]
    {
      KeysAt(keyCounts, i);
      var (dstPort, protocol) := keys[i];
      DistinctGet(keyCounts, i);
      rows := rows + [[Text(dstPort), Text(protocol), Number(Get(keyCounts, (dstPort, protocol)).value)]];
    }
  }

  /** The count column of a tag report adds up to the sum of the tag counts. */
  lemma {:induction false} TagTableTotal(rows: seq<Row>, tagCounts: Dict<string, int>)
    requires IsTagTable(rows, tagCounts)
    ensures CountTotal(rows) == Sum(tagCounts)
  {
    if rows != [] {
      TagTableTotal(rows[1..], tagCounts[1..]);
    }
  }

  /** The count column of a port/protocol report adds up to the sum of the key counts. */
  lemma {:induction false} PortProtocolTableTotal(rows: seq<Row>, keyCounts: Dict<Key, int>)
    requires IsPortProtocolTable(rows, keyCounts)
    ensures CountTotal(rows) == Sum(keyCounts)
  {
    if rows != [] {
      PortProtocolTableTotal(rows[1..], keyCounts[1..]);
    }
  }

  datatype Reports = Reports(tagRows: seq<Row>, portProtocolRows: seq<Row>)

  /**
   * One run of the program on the rows of the lookup CSV and the lines of the
   * flow log. A lookup failure stops the run; otherwise the two reports hold
   * one row per tag and per (port, protocol) key. The port/protocol counts
   * add up to the number of flow records. The tag counts fall short of it by
   * the count a lookup tag named "Untagged" had before the final "Untagged"
   * assignment overwrote it, so the two totals agree whenever no lookup tag
   * is "Untagged".
   */
  method Run(lookupRows: seq<seq<string>>, lines: seq<string>) returns (r: Result<Reports, LoadError>)
    ensures lookupRows == [] ==> r == Failure(MissingHeader)
    ensures lookupRows != [] && !WellFormed(lookupRows[1..]) ==>
      r.Failure? && r.error.ShortRow? && FirstShortRow(lookupRows, r.error.index)
    ensures lookupRows != [] && WellFormed(lookupRows[1..]) ==>
      && r.Success?
      && var lookup := LookupOf(lookupRows[1..]);
         var summary := Summarize(lines, lookup);
         && IsTagTable(r.value.tagRows, summary.tagCounts)
         && IsPortProtocolTable(r.value.portProtocolRows, summary.keyCounts)
         && CountTotal(r.value.portProtocolRows) == |ValidKeys(lines)|
         && CountTotal(r.value.tagRows) == |ValidKeys(lines)| - GetOr(TaggedCounts(lines, lookup), UntaggedTag, 0)
         && (UntaggedTag !in lookup.Values ==> CountTotal(r.value.tagRows) == |ValidKeys(lines)|)
  {
    var loaded := LoadLookupTable(lookupRows);
    if loaded.Failure? {
      return Failure(loaded.error);
    }
    var lookup := loaded.value;
    var tagCounts, keyCounts := ProcessFlowLogs(lines, lookup);
    TagCountsDistinct(lines, lookup);
    KeyCountsConservation(lines, lookup);
    TagCountsConservation(lines, lookup);
    var tagRows := TagRows(tagCounts);
    var portProtocolRows := PortProtocolRows(keyCounts);
    TagTableTotal(tagRows, tagCounts);
    PortProtocolTableTotal(portProtocolRows, keyCounts);
    return Success(Reports(tagRows, portProtocolRows));
  }
}
