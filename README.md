# flow-log-parser in Dafny

flow-log-parser reads a flow log, with one whitespace-separated record per
line, and a lookup table CSV that maps (destination port, protocol name) to a
tag. It writes two reports: how many records carry each tag, and how many
records carry each (port, protocol) combination. This project models the
program's core and proves what its reports contain.

- `Protocols` holds the built-in protocol table. It maps the IANA protocol
  numbers "0" to "19" to lower-case protocol names.
- `FileNames` models `removeExtension`. That function strips the part after
  the last '.' of the whole path. It works on top of `Text.Split` and
  `Text.Join`, which model Python's `str.split(sep)` and `sep.join`, and which
  are proved to be inverses.
- `Text.Fields` models Python's `str.split()` with no argument: maximal runs
  of non-whitespace characters. It is proved to recover the fields of a line
  however they are laid out: tabs or several spaces between them, whitespace
  at either end, or the line end that reading the file line by line leaves.
- `LookupTables` models `loadLookupTable` as a method over the rows the CSV
  reader yields.
  - It skips the header.
  - It stores column 2 under the key (column 0, column 1), so a later row
    overwrites an earlier one.
  - A missing header and a data row with fewer than three columns are errors.
    The Python program raises at those points.
- `FlowLogs` models `processFlowLogs` as a method with the source's loop. It
  is proved equal to `Summarize`, a specification built from three things:
  - the sequence of keys of the flow records, in log order;
  - the tags those keys find in the lookup table;
  - a tally of each.
- `OrderedDicts` models Python's insertion-ordered `dict` as an association
  list. Assigning to a present key overwrites that entry in place, and
  assigning to a new key appends it. This is why the reports list their rows
  in the order in which keys and tags first occur.
- `Reports` models the two row-building loops of `main`, and `Run` composes
  the whole pipeline. The counts of the port/protocol report add up to the
  number of flow records. The counts of the tag report fall short of that
  number by the count a lookup tag named "Untagged" had before the final
  "Untagged" assignment (script.py:81) overwrote it. So both totals agree
  whenever no lookup tag is "Untagged".

## Model

| member | source | states |
|---|---|---|
| Protocols.NumeralsAreProtocols | script.py:6-27 | every decimal numeral 0..19 is a key of the protocol table |
| Protocols.ProtocolsAreNumerals | script.py:6-27 | every key of the protocol table is a one- or two-digit decimal numeral |
| Protocols.ProtocolKeys | script.py:6-27 | the keys of `ProtocolMap` are exactly the numerals "0" to "19" without leading zeros, so "01" or "20" is not a protocol number |
| Protocols.ProtocolNamesNonEmpty | script.py:6-27 | no protocol name is empty, so the `protocol` truth test never rejects a known protocol |
| Text.Join | script.py:34 | `sep.join(parts)`: `JoinSplit` and `SplitJoin` prove it the inverse of `Split` |
| Text.Split | script.py:31 | `s.split(sep)` always gives at least one piece |
| Text.SplitPieces | script.py:31 | `s.split(sep)` gives one more piece than there are separators, and no piece contains the separator |
| Text.JoinSplit | script.py:31-34 | joining the pieces of `s.split(sep)` with `sep` gives `s` back |
| Text.SplitJoin | script.py:31-34 | splitting a join of separator-free pieces gives the pieces back |
| Text.WordLengthMaximal | script.py:55 | the first word of a line is the longest prefix without whitespace |
| Text.Fields | script.py:55 | `line.split()`: characterised by `FieldsAreFields`, `FieldsSplitAt` and `FieldsSpaced` |
| Text.FieldsAreFields | script.py:55 | every field of `line.split()` is non-empty and free of whitespace |
| Text.FieldsUnwords | script.py:55 | `split()` of whitespace-free words joined by spaces gives the words back |
| Text.FieldsOfField | script.py:55 | a single whitespace-free, non-empty word splits into itself |
| Text.FieldsSplitAt | script.py:55 | any whitespace character splits a line into two halves whose fields are those of each half, in order |
| Text.FieldsLeadingSpace | script.py:55 | whitespace at the start of a line adds no field |
| Text.FieldsSpaced | script.py:55 | `split()` of fields laid out with any whitespace runs between them (non-empty) and around them (possibly empty) gives the fields back |
| Text.FieldsIgnoreLineEnd | script.py:54-55 | the "\n" that `for line in f` leaves at the end of a line adds no field |
| FileNames.RemoveExtension | script.py:30-34 | `removeExtension`: characterised by `RemoveExtensionNoDot` and `RemoveExtensionLastDot` |
| FileNames.RemoveExtensionNoDot | script.py:32-33 | a path without '.' is returned unchanged |
| FileNames.RemoveExtensionLastDot | script.py:30-34 | for a path with a '.', the result is exactly the prefix before the last '.' |
| FileNames.RemoveAppendedExtension | script.py:30-34 | removing an appended '.ext' (ext without '.') gives back the stem |
| FileNames.RemoveExtensionKeepsEarlierDots | script.py:30-34 | "a.b.csv" becomes "a.b": only the last piece is dropped |
| FileNames.RemoveExtensionDotFile | script.py:30-34 | ".hidden" becomes the empty string |
| FileNames.RemoveExtensionWholePath | script.py:30-34 | "d.x/f" becomes "d": the split is over the whole path, directories included |
| LookupTables.LoadLookupTable | script.py:37-45 | no header gives MissingHeader; rows that all have three columns give the table the rows describe; otherwise the failure names the first short data row |
| LookupTables.LookupKeys | script.py:42-44 | a key is in the table iff some data row has it in its first two columns |
| LookupTables.LookupLastWins | script.py:42-44 | a key's tag is the one from the last row with that key |
| LookupTables.LookupIgnoresExtraColumns | script.py:43-44 | columns after the third do not affect the table |
| OrderedDicts.Keys | script.py:110-112 | a dict iterates over as many keys as it has entries |
| OrderedDicts.KeysAt | script.py:110-112 | the iteration order of a dict is the key column of its entries |
| OrderedDicts.GetDomain | script.py:73-76 | a lookup fails exactly for keys not in the dict |
| OrderedDicts.Put | script.py:81 | `d[k] = v`: characterised by `PutGet`, `PutKeys` and `PutDistinct` |
| OrderedDicts.PutGet | script.py:81 | after `d[k] = v`, `k` maps to `v` and other keys keep their values |
| OrderedDicts.PutKeys | script.py:81 | `d[k] = v` appends `k` to the key order only when it is new, and otherwise keeps the order |
| OrderedDicts.PutDistinct | script.py:81 | assignment never duplicates a key |
| OrderedDicts.Sum | script.py:79 | `sum(d.values())`: `SumPut`, `IncrementSum` and `TallySum` state how it changes and what it totals |
| OrderedDicts.SumPut | script.py:79-81 | assignment changes the sum of the values by new minus old |
| OrderedDicts.GetOr | script.py:73-76 | `d.get(k, 0)`: the value of `k`, or the default exactly when `GetDomain` says `k` is absent |
| OrderedDicts.Increment | script.py:73-76 | `d[k] = d.get(k, 0) + 1`: characterised by `IncrementCounts`, `IncrementKeys` and `IncrementSum` |
| OrderedDicts.IncrementCounts | script.py:73-76 | `d[k] = d.get(k, 0) + 1` adds one to `k`'s count and leaves the other counts |
| OrderedDicts.IncrementKeys | script.py:73-76 | an increment appends a new key last and otherwise keeps the key order |
| OrderedDicts.IncrementSum | script.py:73-76 | an increment adds one to the sum of the counts |
| OrderedDicts.TallyDistinct | script.py:73-76 | repeated increments keep keys unique |
| OrderedDicts.TallyKeys | script.py:73-76 | the keys of a tally are exactly the tallied elements |
| OrderedDicts.TallyCounts | script.py:73-76 | a tally maps each element to its number of occurrences |
| OrderedDicts.TallyPositive | script.py:73-76 | every count in a tally is at least one |
| OrderedDicts.DistinctGet | script.py:110-112 | with unique keys, looking up an entry's key gives that entry's value |
| OrderedDicts.TallySum | script.py:73-76 | the counts of a tally add up to the number of tallied elements |
| OrderedDicts.TallyOrder | script.py:73-76 | a tally lists its keys in order of first occurrence |
| FlowLogs.ProcessFlowLogs | script.py:48-83 | the loop's tag counts and key counts are those of `Summarize` |
| FlowLogs.CountLine | script.py:54-76 | one iteration: a line that is not a record changes nothing; a record adds one to the total and its key, and to its tag when the key is in the lookup table |
| FlowLogs.LineStep | script.py:54-76 | the specification moves from `i` lines to `i + 1` lines exactly as one iteration does |
| FlowLogs.ValidKeysOrigin | script.py:55-72 | a key is counted iff some line is a flow record with that key |
| FlowLogs.ValidKeysAppend | script.py:54 | the records of two concatenated logs are those of the first followed by those of the second |
| FlowLogs.InvalidLineIgnored | script.py:57-70 | inserting a line that is not a flow record anywhere changes neither report |
| FlowLogs.SkipsWrongFieldCount | script.py:58-59 | a line without exactly 14 fields changes neither report |
| FlowLogs.SkipsUnknownProtocol | script.py:66-70 | a line whose field 7 is not a protocol number changes neither report |
| FlowLogs.Classify | script.py:55-72 | whether a line is a flow record, and its key: characterised by `LineOfFields`, `SkipsWrongFieldCount` and `SkipsUnknownProtocol` |
| FlowLogs.LineOfFields | script.py:55-72 | a line of whitespace-free fields, with any whitespace between and around them, is a record iff it has 14 fields and field 7 is a protocol number, keyed by field 6 and the protocol name |
| FlowLogs.ClassifyIgnoresLineEnd | script.py:54-72 | a line is classified the same with or without the "\n" that reading the file leaves at its end |
| FlowLogs.KeptLineStep | script.py:70-76 | a record adds one to the total, increments its key, and increments its tag exactly when the key is in the lookup table |
| FlowLogs.KeyCountsConservation | script.py:71-73 | key counts have unique keys, exactly the keys of records, each with its number of records (at least one), summing to the number of records |
| FlowLogs.TagsAndUnmatched | script.py:74-76 | every record is either tagged by the lookup table or unmatched; found tags are lookup values |
| FlowLogs.TaggedCountsMeaning | script.py:74-76 | before "Untagged" is set, each tag counts the records that found it, and the counts sum to the number of tagged records |
| FlowLogs.CountUntagged | script.py:78-81 | the final "Untagged" assignment: characterised by `UntaggedComplement` and `TagCountsConservation` |
| FlowLogs.UntaggedComplement | script.py:78-81 | "Untagged" is present iff there was a record, and then counts the records with no lookup entry |
| FlowLogs.TagCountsConservation | script.py:78-81 | the tag counts sum to the record total, less any overwritten count of a lookup tag named "Untagged" |
| FlowLogs.KeyCountsOrder | script.py:73 | key counts are in order of first occurrence in the log |
| FlowLogs.TagCountsOrder | script.py:76-81 | tags are in order of first occurrence, then "Untagged" when new; no records gives no tags |
| FlowLogs.TagCountsDistinct | script.py:76-81 | the tag counts never list a tag twice |
| FlowLogs.OneTaggedOneUntagged | script.py:48-83 | a tagged record followed by a record with another, unknown key gives that tag 1, then Untagged 1, and one count per key in log order |
| Reports.TagRows | script.py:110-112 | one `[tag, count]` row per tag, in dict order |
| Reports.PortProtocolRows | script.py:118-120 | one `[port, protocol, count]` row per key, in dict order |
| Reports.TagTableTotal | script.py:110-112 | the count column of the tag rows sums to the sum of the tag counts |
| Reports.PortProtocolTableTotal | script.py:118-120 | the count column of the port/protocol rows sums to the sum of the key counts |
| Reports.Run | script.py:94-123 | lookup errors stop the run; otherwise both reports are the rows of `Summarize`; the port/protocol counts sum to the record total; the tag counts sum to it less the overwritten count of a lookup tag named "Untagged", so to the total when there is none |

## Left out

- File I/O is not modelled: opening and reading files, and `writeCSV`, which
  writes a header row and the rows. `Run` takes the lookup CSV's rows and the
  log's lines as values and returns the rows without their header.
- CSV parsing and quoting by Python's `csv` module are not modelled. A lookup
  row is the list of strings the reader yields.
- argparse, the `print` messages and the output file names are not modelled.
  The names are f-strings around `removeExtension`, which is modelled.
- Text.Fields: whitespace is the six ASCII characters space, tab, LF, VT, FF
  and CR. Python's `str.split()` also splits on \x1c-\x1f, \x85 and Unicode
  spaces; those are not modelled.
- Errors other than a missing header or a short row are not modelled, such as
  unreadable files or undecodable bytes.
- A lookup tag spelled "Untagged" is modelled as written. At the end the
  program overwrites that tag's count with the number of untagged records, so
  `FlowLogs.TagCountsConservation` states the total only up to that count.
