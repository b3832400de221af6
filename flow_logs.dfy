/**
 * The flow-log aggregator (script.py:48-83). Each line of the log is split on
 * whitespace; a line is a flow record when it has exactly 14 fields and its
 * field 7 is a protocol number of the protocol table. For every record the
 * aggregator counts the (destination port, protocol name) key, and counts the
 * key's tag when the lookup table has one; at the end the records without a
 * tag are counted under "Untagged".
 */
module FlowLogs {
  import opened Wrappers
  import opened OrderedDicts
  import opened Text
  import opened Protocols
  import opened LookupTables

  const FieldCount := 14
  const DstPortField := 6
  const ProtocolField := 7
  const UntaggedTag := "Untagged"

  /** The lookup key of a line when the line is a flow record, None when the line is skipped. */
  function Classify(line: string): Option<Key> {
    var fields := Fields(line);
    if |fields| != FieldCount || fields[ProtocolField] !in ProtocolMap then None
    else Some((fields[DstPortField], ProtocolMap[fields[ProtocolField]]))
  }

  function KeysOfLine(line: string): seq<Key> {
    match Classify(line)
    case Some(k) => [k]
    case None => []
  }

  /** The keys of the flow records among `lines`, one per record, in log order. */
  function ValidKeys(lines: seq<string>): seq<Key> {
    if lines == [] then []
    else ValidKeys(lines[..|lines| - 1]) + KeysOfLine(lines[|lines| - 1])
  }

  /** The tags that the lookup table gives to `keys`, in order; keys without an entry give none. */
  function TagsOf(keys: seq<Key>, lookup: Lookup): seq<string> {
    if keys == [] then []
    else
      var k := keys[|keys| - 1];
      TagsOf(keys[..|keys| - 1], lookup) + if k in lookup then [lookup[k]] else []
  }

  /** The keys that have no entry in the lookup table, in order. */
  function UnmatchedKeys(keys: seq<Key>, lookup: Lookup): seq<Key> {
    if keys == [] then []
    else
      var k := keys[|keys| - 1];
      UnmatchedKeys(keys[..|keys| - 1], lookup) + if k in lookup then [] else [k]
  }

  /** The count of each key, in order of first occurrence. */
  function KeyCounts(lines: seq<string>): Dict<Key, int> {
    Tally(ValidKeys(lines))
  }

  /** The count of each tag found through the lookup table, in order of first occurrence. */
  function TaggedCounts(lines: seq<string>, lookup: Lookup): Dict<string, int> {
    Tally(TagsOf(ValidKeys(lines), lookup))
  }

  datatype Summary = Summary(tagCounts: Dict<string, int>, keyCounts: Dict<Key, int>)

  /**
   * The tag counts after the pass: when there was at least one record,
   * "Untagged" is set to the number of records minus the sum of the tag counts.
   */
  function CountUntagged(tagged: Dict<string, int>, totalInputs: nat): Dict<string, int> {
    if totalInputs > 0 then Put(tagged, UntaggedTag, totalInputs - Sum(tagged)) else tagged
  }

  /** What the aggregator returns for a log. */
  function Summarize(lines: seq<string>, lookup: Lookup): Summary {
    Summary(CountUntagged(TaggedCounts(lines, lookup), |ValidKeys(lines)|), KeyCounts(lines))
  }

  /** `processFlowLogs` over the lines of the log, in order. */
  method ProcessFlowLogs(lines: seq<string>, lookup: Lookup) returns (tagCounts: Dict<string, int>, keyCounts: Dict<Key, int>)
    ensures Summary(tagCounts, keyCounts) == Summarize(lines, lookup)
  {
    tagCounts, keyCounts := [], [];
    var totalInputs: nat := 0;
    for i := 0 to |lines|
      invariant totalInputs == |ValidKeys(lines[..i])|
      invariant keyCounts == KeyCounts(lines[..i])
      invariant tagCounts == TaggedCounts(lines[..i], lookup)
    {
      tagCounts, keyCounts, totalInputs := CountLine(lines[i], lookup, tagCounts, keyCounts, totalInputs);
      LineStep(lines, i, lookup);
    }
    assert lines[..|lines|] == lines;
    ghost var tagged := tagCounts;
    var totalTagged := Sum(tagCounts);
    if totalInputs > 0 {
      tagCounts := Put(tagCounts, UntaggedTag, totalInputs - totalTagged);
    }
    assert tagCounts == CountUntagged(tagged, totalInputs);
  }

  /**
   * The body of the loop of `processFlowLogs` for one line: a line that is
   * not a flow record leaves the counts as they were; a record adds one to
   * the total and to its key's count, and to its tag's count when the lookup
   * table has its key.
   */
  method CountLine(line: string, lookup: Lookup, tagCounts: Dict<string, int>, keyCounts: Dict<Key, int>, totalInputs: nat)
    returns (tagCounts': Dict<string, int>, keyCounts': Dict<Key, int>, totalInputs': nat)
    ensures Classify(line).None? ==>
      tagCounts' == tagCounts && keyCounts' == keyCounts && totalInputs' == totalInputs
    ensures Classify(line).Some? ==>
      var key := Classify(line).value;
      && totalInputs' == totalInputs + 1
      && keyCounts' == Increment(keyCounts, key)
      && tagCounts' == if key in lookup then Increment(tagCounts, lookup[key]) else tagCounts
  {
    tagCounts', keyCounts', totalInputs' := tagCounts, keyCounts, totalInputs;
    var fields := Fields(line);
    if fields == [] || |fields| != FieldCount {
      return;
    }
    FieldsAreFields(line);
    var dstPort := fields[DstPortField];
    var protocol: Option<string> := None;
    if fields[ProtocolField] in ProtocolMap {
      protocol := Some(ProtocolMap[fields[ProtocolField]]);
    }
    ProtocolNamesNonEmpty();
    if dstPort != "" && protocol.Some? && protocol.value != "" {
      totalInputs' := totalInputs' + 1;
      var key := (dstPort, protocol.value);
      keyCounts' := Increment(keyCounts', key);
      if key in lookup {
        var tag := lookup[key];
        tagCounts' := Increment(tagCounts', tag);
      }
    } else {
      assert dstPort != "";
    }
  }

  /** How the specification of the counts moves from the first `i` lines to the first `i + 1`. */
  lemma LineStep(lines: seq<string>, i: nat, lookup: Lookup)
    requires i < |lines|
    ensures Classify(lines[i]).None? ==>
      && |ValidKeys(lines[..i + 1])| == |ValidKeys(lines[..i])|
      && KeyCounts(lines[..i + 1]) == KeyCounts(lines[..i])
      && TaggedCounts(lines[..i + 1], lookup) == TaggedCounts(lines[..i], lookup)
    ensures Classify(lines[i]).Some? ==>
      var key := Classify(lines[i]).value;
      var tagged := TaggedCounts(lines[..i], lookup);
      && |ValidKeys(lines[..i + 1])| == |ValidKeys(lines[..i])| + 1
      && KeyCounts(lines[..i + 1]) == Increment(KeyCounts(lines[..i]), key)
      && TaggedCounts(lines[..i + 1], lookup) == if key in lookup then Increment(tagged, lookup[key]) else tagged
  {
    assert lines[..i + 1] == lines[..i] + [lines[i]];
    if Classify(lines[i]).Some? {
      KeptLineStep(lines[..i], lines[i], lookup);
    } else {
      ValidKeysPrefix(lines, i);
      assert ValidKeys(lines[..i + 1]) == ValidKeys(lines[..i]);
    }
  }

  lemma ValidKeysSnoc(lines: seq<string>, line: string)
    ensures ValidKeys(lines + [line]) == ValidKeys(lines) + KeysOfLine(line)
  {
    assert (lines + [line])[..|lines|] == lines;
  }

  lemma ValidKeysPrefix(lines: seq<string>, i: nat)
    requires i < |lines|
    ensures ValidKeys(lines[..i + 1]) == ValidKeys(lines[..i]) + KeysOfLine(lines[i])
  {
    assert lines[..i + 1][..i] == lines[..i];
  }

  lemma TagsOfSnoc(keys: seq<Key>, k: Key, lookup: Lookup)
    ensures TagsOf(keys + [k], lookup) == TagsOf(keys, lookup) + if k in lookup then [lookup[k]] else []
  {
    assert (keys + [k])[..|keys|] == keys;
  }

  lemma TallySnoc<K(!new)>(xs: seq<K>, x: K)
    ensures Tally(xs + [x]) == Increment(Tally(xs), x)
  {
    assert (xs + [x])[..|xs|] == xs;
  }

  /** The keys of the records are the keys of the lines that pass both checks, and only those. */
  lemma ValidKeysOrigin(lines: seq<string>)
    ensures forall k :: k in ValidKeys(lines) <==> exists i :: 0 <= i < |lines| && Classify(lines[i]) == Some(k)
  {
    forall k ensures k in ValidKeys(lines) <==> exists i :: 0 <= i < |lines| && Classify(lines[i]) == Some(k) {
      KeyOrigin(lines, k);
    }
  }

  lemma {:induction false} KeyOrigin(lines: seq<string>, k: Key)
    ensures k in ValidKeys(lines) <==> exists i :: 0 <= i < |lines| && Classify(lines[i]) == Some(k)
  {
    if lines != [] {
      var init, last := lines[..|lines| - 1], lines[|lines| - 1];
      KeyOrigin(init, k);
      assert ValidKeys(lines) == ValidKeys(init) + KeysOfLine(last);
      if k in ValidKeys(lines) {
        if k in ValidKeys(init) {
          var i :| 0 <= i < |init| && Classify(init[i]) == Some(k);
          assert lines[i] == init[i];
        } else {
          assert k in KeysOfLine(last);
          assert Classify(lines[|lines| - 1]) == Some(k);
        }
      }
      if exists i :: 0 <= i < |lines| && Classify(lines[i]) == Some(k) {
        var i :| 0 <= i < |lines| && Classify(lines[i]) == Some(k);
        if i < |init| {
          assert init[i] == lines[i];
        } else {
          assert KeysOfLine(last) == [k];
        }
      }
    }
  }

  lemma {:induction false} ValidKeysAppend(a: seq<string>, b: seq<string>)
    ensures ValidKeys(a + b) == ValidKeys(a) + ValidKeys(b)
  {
    if b == [] {
      assert a + b == a;
    } else {
      ValidKeysAppend(a, b[..|b| - 1]);
      assert (a + b)[..|a + b| - 1] == a + b[..|b| - 1];
    }
  }

  /** A skipped line changes nothing: the result is as if it were not in the log. */
  lemma InvalidLineIgnored(before: seq<string>, line: string, after: seq<string>, lookup: Lookup)
    requires Classify(line).None?
    ensures Summarize(before + [line] + after, lookup) == Summarize(before + after, lookup)
  {
    assert ValidKeys(before + [line] + after) == ValidKeys(before + after) by {
      ValidKeysAppend(before + [line], after);
      ValidKeysAppend(before, [line]);
      ValidKeysAppend(before, after);
      assert ValidKeys([line]) == [] by {
        assert [line][..0] == [];
      }
    }
    SummarizeByKeys(before + [line] + after, before + after, lookup);
  }

  /** The result depends on the log only through the keys of its flow records. */
  lemma SummarizeByKeys(a: seq<string>, b: seq<string>, lookup: Lookup)
    requires ValidKeys(a) == ValidKeys(b)
    ensures Summarize(a, lookup) == Summarize(b, lookup)
  {
  }

  /** A line whose whitespace split does not give exactly 14 fields contributes nothing. */
  lemma SkipsWrongFieldCount(before: seq<string>, line: string, after: seq<string>, lookup: Lookup)
    requires |Fields(line)| != FieldCount
    ensures Summarize(before + [line] + after, lookup) == Summarize(before + after, lookup)
  {
    InvalidLineIgnored(before, line, after, lookup);
  }

  /** A 14-field line whose field 7 is not a protocol number of the table contributes nothing. */
  lemma SkipsUnknownProtocol(before: seq<string>, line: string, after: seq<string>, lookup: Lookup)
    requires |Fields(line)| == FieldCount && Fields(line)[ProtocolField] !in ProtocolMap
    ensures Summarize(before + [line] + after, lookup) == Summarize(before + after, lookup)
  {
    InvalidLineIgnored(before, line, after, lookup);
  }

  /**
   * A flow record adds one to the number of records and increments the count
   * of its key; it increments the count of its tag when the lookup table has
   * one, and otherwise leaves the tag counts as they were.
   */
  lemma KeptLineStep(lines: seq<string>, line: string, lookup: Lookup)
    requires Classify(line).Some?
    ensures |ValidKeys(lines + [line])| == |ValidKeys(lines)| + 1
    ensures KeyCounts(lines + [line]) == Increment(KeyCounts(lines), Classify(line).value)
    ensures var k := Classify(line).value;
      TaggedCounts(lines + [line], lookup) ==
        if k in lookup then Increment(TaggedCounts(lines, lookup), lookup[k]) else TaggedCounts(lines, lookup)
  {
    var k := Classify(line).value;
    var done := ValidKeys(lines);
    ValidKeysSnoc(lines, line);
    assert ValidKeys(lines + [line]) == done + [k];
    TallySnoc(done, k);
    TagsOfSnoc(done, k, lookup);
    if k in lookup {
      TallySnoc(TagsOf(done, lookup), lookup[k]);
    } else {
      assert TagsOf(done + [k], lookup) == TagsOf(done, lookup);
    }
  }

  /**
   * The key counts: each key of a flow record appears once, with the number of
   * records that carry it (at least one), and the counts add up to the number
   * of records.
   */
  lemma KeyCountsConservation(lines: seq<string>, lookup: Lookup)
    ensures var kc := Summarize(lines, lookup).keyCounts;
      && DistinctKeys(kc)
      && (forall k :: k in Keys(kc) <==> exists i :: 0 <= i < |lines| && Classify(lines[i]) == Some(k))
      && (forall k :: GetOr(kc, k, 0) == multiset(ValidKeys(lines))[k])
      && (forall i :: 0 <= i < |kc| ==> kc[i].1 >= 1)
      && Sum(kc) == |ValidKeys(lines)|
  {
    var vk := ValidKeys(lines);
    TallyDistinct(vk);
    TallyKeys(vk);
    TallyCounts(vk);
    TallyPositive(vk);
    TallySum(vk);
    ValidKeysOrigin(lines);
  }

  lemma {:induction false} TagsAndUnmatched(keys: seq<Key>, lookup: Lookup)
    ensures |TagsOf(keys, lookup)| + |UnmatchedKeys(keys, lookup)| == |keys|
    ensures forall t :: t in TagsOf(keys, lookup) ==> t in lookup.Values
  {
    if keys != [] {
      TagsAndUnmatched(keys[..|keys| - 1], lookup);
    }
  }

  /**
   * "Untagged" is a tag of the result exactly when there was a flow record,
   * and then it counts the records whose key has no entry in the lookup
   * table: the number of records minus the number of tagged ones.
   */
  lemma UntaggedComplement(lines: seq<string>, lookup: Lookup)
    ensures var total := |ValidKeys(lines)|;
      var tc := Summarize(lines, lookup).tagCounts;
      && (UntaggedTag in Keys(tc) <==> total > 0)
      && (total > 0 ==> Get(tc, UntaggedTag) == Some(|UnmatchedKeys(ValidKeys(lines), lookup)|))
      && (total > 0 ==> Get(tc, UntaggedTag) == Some(total - |TagsOf(ValidKeys(lines), lookup)|))
  {
    UntaggedOfKeys(ValidKeys(lines), lookup);
  }

  lemma UntaggedOfKeys(keys: seq<Key>, lookup: Lookup)
    ensures var tc := CountUntagged(Tally(TagsOf(keys, lookup)), |keys|);
      && (UntaggedTag in Keys(tc) <==> |keys| > 0)
      && (|keys| > 0 ==> Get(tc, UntaggedTag) == Some(|UnmatchedKeys(keys, lookup)|))
      && (|keys| > 0 ==> Get(tc, UntaggedTag) == Some(|keys| - |TagsOf(keys, lookup)|))
  {
    var hits := TagsOf(keys, lookup);
    var tagged := Tally(hits);
    UntaggedEntry(tagged, |keys|);
    assert Sum(tagged) == |hits| by {
      TallySum(hits);
    }
    assert |hits| + |UnmatchedKeys(keys, lookup)| == |keys| by {
      TagsAndUnmatched(keys, lookup);
    }
    if |keys| == 0 {
      assert hits == [];
      assert CountUntagged(tagged, |keys|) == [];
    }
  }

  /**
   * The tag counts add up to the number of records, less whatever count a
   * lookup tag that is itself named "Untagged" had before being overwritten;
   * so when no lookup tag is named "Untagged", they add up to the number of
   * records.
   */
  lemma TagCountsConservation(lines: seq<string>, lookup: Lookup)
    ensures var total := |ValidKeys(lines)|;
      var tc := Summarize(lines, lookup).tagCounts;
      && Sum(tc) == total - GetOr(TaggedCounts(lines, lookup), UntaggedTag, 0)
      && (UntaggedTag !in lookup.Values ==> Sum(tc) == total)
  {
    TagSumOfKeys(ValidKeys(lines), lookup);
  }

  lemma TagSumOfKeys(keys: seq<Key>, lookup: Lookup)
    ensures var tagged := Tally(TagsOf(keys, lookup));
      var tc := CountUntagged(tagged, |keys|);
      && Sum(tc) == |keys| - GetOr(tagged, UntaggedTag, 0)
      && (UntaggedTag !in lookup.Values ==> Sum(tc) == |keys|)
  {
    var hits := TagsOf(keys, lookup);
    var tagged := Tally(hits);
    UntaggedSum(tagged, |keys|);
    if |keys| == 0 {
      assert hits == [];
    }
    if UntaggedTag !in lookup.Values {
      assert GetOr(tagged, UntaggedTag, 0) == 0 by {
        TagsAndUnmatched(keys, lookup);
        TallyCounts(hits);
        assert UntaggedTag !in hits;
      }
    }
  }

  /**
   * The tag counts before "Untagged" is set: one entry per tag found through
   * the lookup table, counting the records that carry it.
   */
  lemma TaggedCountsMeaning(lines: seq<string>, lookup: Lookup)
    ensures var tagged := TaggedCounts(lines, lookup);
      var hits := TagsOf(ValidKeys(lines), lookup);
      && DistinctKeys(tagged)
      && (forall t :: t in Keys(tagged) ==> t in lookup.Values)
      && (forall t :: GetOr(tagged, t, 0) == multiset(hits)[t])
      && (forall i :: 0 <= i < |tagged| ==> tagged[i].1 >= 1)
      && Sum(tagged) == |hits|
  {
    var hits := TagsOf(ValidKeys(lines), lookup);
    TagsAndUnmatched(ValidKeys(lines), lookup);
    TallyDistinct(hits);
    TallyKeys(hits);
    TallyCounts(hits);
    TallyPositive(hits);
    TallySum(hits);
  }

  /** The key counts list their keys in the order in which the keys first occur in the log. */
  lemma KeyCountsOrder(lines: seq<string>, lookup: Lookup)
    ensures var kc := Summarize(lines, lookup).keyCounts;
      var vk := ValidKeys(lines);
      forall i, j :: 0 <= i < j < |kc| ==> FirstIndex(vk, kc[i].0) < FirstIndex(vk, kc[j].0)
  {
    TallyOrder(ValidKeys(lines));
  }

  /**
   * The tag counts list the tags in the order in which they are first found,
   * followed by "Untagged" when it is new; without records they are empty.
   */
  lemma TagCountsOrder(lines: seq<string>, lookup: Lookup)
    ensures var tc := Summarize(lines, lookup).tagCounts;
      var tagged := TaggedCounts(lines, lookup);
      var hits := TagsOf(ValidKeys(lines), lookup);
      && (forall i, j :: 0 <= i < j < |tagged| ==> FirstIndex(hits, tagged[i].0) < FirstIndex(hits, tagged[j].0))
      && (|ValidKeys(lines)| == 0 ==> tc == [])
      && (|ValidKeys(lines)| > 0 && UntaggedTag !in Keys(tagged) ==> Keys(tc) == Keys(tagged) + [UntaggedTag])
      && (|ValidKeys(lines)| > 0 && UntaggedTag in Keys(tagged) ==> Keys(tc) == Keys(tagged))
  {
    TallyOrder(TagsOf(ValidKeys(lines), lookup));
    TagOrderOfKeys(ValidKeys(lines), lookup);
  }

  lemma TagOrderOfKeys(keys: seq<Key>, lookup: Lookup)
    ensures |keys| == 0 ==> CountUntagged(Tally(TagsOf(keys, lookup)), |keys|) == []
    ensures var tagged := Tally(TagsOf(keys, lookup));
      |keys| > 0 && UntaggedTag !in Keys(tagged) ==>
        Keys(CountUntagged(tagged, |keys|)) == Keys(tagged) + [UntaggedTag]
    ensures var tagged := Tally(TagsOf(keys, lookup));
      |keys| > 0 && UntaggedTag in Keys(tagged) ==> Keys(CountUntagged(tagged, |keys|)) == Keys(tagged)
  {
    var hits := TagsOf(keys, lookup);
    UntaggedKeys(Tally(hits), |keys|);
    if |keys| == 0 {
      assert hits == [];
    }
  }

  /** The tag counts never list a tag twice. */
  lemma TagCountsDistinct(lines: seq<string>, lookup: Lookup)
    ensures DistinctKeys(Summarize(lines, lookup).tagCounts)
  {
    TagsDistinctOfKeys(ValidKeys(lines), lookup);
  }

  lemma TagsDistinctOfKeys(keys: seq<Key>, lookup: Lookup)
    ensures DistinctKeys(CountUntagged(Tally(TagsOf(keys, lookup)), |keys|))
  {
    var hits := TagsOf(keys, lookup);
    TallyDistinct(hits);
    UntaggedDistinct(Tally(hits), |keys|);
  }

  lemma UntaggedEntry(tagged: Dict<string, int>, total: nat)
    ensures total == 0 ==> CountUntagged(tagged, total) == tagged
    ensures total > 0 ==> Get(CountUntagged(tagged, total), UntaggedTag) == Some(total - Sum(tagged))
    ensures total > 0 ==> UntaggedTag in Keys(CountUntagged(tagged, total))
  {
    if total > 0 {
      var count := total - Sum(tagged);
      assert CountUntagged(tagged, total) == Put(tagged, UntaggedTag, count);
      PutGet(tagged, UntaggedTag, count);
      GetDomain(Put(tagged, UntaggedTag, count), UntaggedTag);
    }
  }

  lemma UntaggedKeys(tagged: Dict<string, int>, total: nat)
    ensures total > 0 ==>
      Keys(CountUntagged(tagged, total)) == if UntaggedTag in Keys(tagged) then Keys(tagged) else Keys(tagged) + [UntaggedTag]
  {
    if total > 0 {
      PutKeys(tagged, UntaggedTag, total - Sum(tagged));
    }
  }

  lemma UntaggedSum(tagged: Dict<string, int>, total: nat)
    ensures total > 0 ==> Sum(CountUntagged(tagged, total)) == total - GetOr(tagged, UntaggedTag, 0)
  {
    if total > 0 {
      SumPut(tagged, UntaggedTag, total - Sum(tagged));
    }
  }

  lemma UntaggedDistinct(tagged: Dict<string, int>, total: nat)
    requires DistinctKeys(tagged)
    ensures DistinctKeys(CountUntagged(tagged, total))
  {
    if total > 0 {
      PutDistinct(tagged, UntaggedTag, total - Sum(tagged));
    }
  }

  /**
   * Two records with different keys, the first tagged by the lookup table
   * and the second unknown to it: the tag report is the first key's tag with
   * count 1 followed by "Untagged" with count 1, and each key is counted once,
   * in log order.
   */
  lemma OneTaggedOneUntagged(first: string, second: string, lookup: Lookup)
    requires Classify(first).Some? && Classify(second).Some?
    requires Classify(first) != Classify(second)
    requires Classify(first).value in lookup && Classify(second).value !in lookup
    requires lookup[Classify(first).value] != UntaggedTag
    ensures var k1, k2 := Classify(first).value, Classify(second).value;
      Summarize([first, second], lookup) == Summary([(lookup[k1], 1), (UntaggedTag, 1)], [(k1, 1), (k2, 1)])
  {
    var k1, k2 := Classify(first).value, Classify(second).value;
    var tag := lookup[k1];
    assert ValidKeys([first, second]) == [k1, k2] by {
      assert [first, second][..1] == [first];
      assert ValidKeys([first]) == [k1];
    }
    var keys := [k1, k2];
    assert keys[..1] == [k1] && keys[..1][..0] == [];
    assert TagsOf(keys, lookup) == [tag] by {
      assert TagsOf(keys[..1], lookup) == [tag];
    }
    assert Tally([tag]) == [(tag, 1)] by {
      assert [tag][..0] == [];
    }
    assert Tally(keys) == [(k1, 1), (k2, 1)] by {
      assert Tally(keys[..1]) == [(k1, 1)];
      assert [(k1, 1)][1..] == [];
      assert Get([(k1, 1)], k2) == Get([], k2) == None;
      assert Put([(k1, 1)], k2, 1) == [(k1, 1)] + Put([], k2, 1);
    }
    assert CountUntagged([(tag, 1)], 2) == [(tag, 1), (UntaggedTag, 1)] by {
      assert Sum([(tag, 1)]) == 1;
      assert [(tag, 1)][1..] == [];
      assert Put([(tag, 1)], UntaggedTag, 1) == [(tag, 1)] + Put([], UntaggedTag, 1);
    }
  }

  /**
   * A line made of whitespace-free fields, laid out with any runs of
   * whitespace between and around them, is a flow record exactly when it has
   * 14 fields and its field 7 is a protocol number, and its key is then
   * field 6 with the protocol's name.
   */
  lemma LineOfFields(fields: seq<string>, gaps: seq<string>)
    requires forall i :: 0 <= i < |fields| ==> IsField(fields[i])
    requires IsGaps(gaps, |fields|)
    ensures Classify(Spaced(fields, gaps)) ==
      if |fields| == FieldCount && fields[ProtocolField] in ProtocolMap
      then Some((fields[DstPortField], ProtocolMap[fields[ProtocolField]]))
      else None
  {
    FieldsSpaced(fields, gaps);
  }

  /** A line read from the file with its line end is classified as the line without it. */
  lemma ClassifyIgnoresLineEnd(line: string)
    ensures Classify(line + "\n") == Classify(line)
  {
    FieldsIgnoreLineEnd(line);
  }
}
