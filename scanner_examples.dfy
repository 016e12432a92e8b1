/**
 * The scanner on concrete lines: the reference line of a serialised prefab,
 * a GUID repeated on two lines, a line with only the upper-case marker, and a
 * line with the marker but no `guid: …,` match.
 */
module ScannerExamples {
  import opened Results
  import opened Scanner

  /** The lazy capture started at `from` stops at the first ',' it can. */
  lemma LazyEndIsCaptureEnd(s: string, from: nat, k: nat)
    requires LazyEnd(s, from, k)
    ensures CaptureEnd(s, from) == Some(k)
  {
    var r := CaptureEnd(s, from);
    if r.Some? {
      assert LazyEnd(s, from, r.value);
    }
  }

  /**
   * A line made of a head without any 'g' or 'G', then `guid: `, an
   * identifier without ',' or line break, a ',' and anything at all,
   * contributes exactly that identifier.
   */
  lemma ReferenceLine(line: string, head: string, id: string, tail: string)
    requires line == head + Prefix + id + "," + tail
    requires forall c :: c in head ==> c != 'g' && c != 'G'
    requires ',' !in id && '\n' !in id
    ensures ExamineLine(line) == Found(id)
  {
    var i := |head|;
    var e := i + |Prefix| + |id|;
    assert line[i..i + |Marker|] == Marker;
    assert OccursAt(line, Marker, i);
    assert line[i..i + |Prefix|] == Prefix;
    assert PrefixAt(line, i);
    assert line[i + |Prefix|..e] == id;
    forall j | i + |Prefix| <= j < e ensures line[j] != ',' && line[j] != '\n' {
      assert line[j] == id[j - i - |Prefix|];
    }
    assert line[e] == ',';
    LazyEndIsCaptureEnd(line, i + |Prefix|, e);
    assert MatchAt(line, i);
    forall j: nat | j < i ensures !PrefixAt(line, j) {
      assert line[j] == head[j];
      assert line[j] in head;
      assert Prefix[0] == 'g';
      assert Lower(line[j + 0]) != 'g';
    }
    assert LeftmostMatch(line, 0) == Some(i);
  }

  /** The MonoBehaviour script reference of a prefab yields the script's GUID. */
  lemma ScriptReferenceLine(line: string)
    requires line == "m_Script: {fileID: 11500000, guid: abcd1234ef, type: 3}"
    ensures ExamineLine(line) == Found("abcd1234ef")
  {
    var head, id, tail := "m_Script: {fileID: 11500000, ", "abcd1234ef", " type: 3}";
    assert forall c :: c in head ==> c != 'g' && c != 'G';
    assert line == head + Prefix + id + "," + tail;
    ReferenceLine(line, head, id, tail);
  }

  /** Two lines naming the same GUID give it once. */
  lemma SameGuidOnTwoLines(line: string, id: string)
    requires ExamineLine(line) == Found(id)
    ensures Scan([line, line]) == Ok([id])
  {
    CollectSameGuidTwice(line, id);
    DistinctOfRepeat(id);
  }

  lemma CollectSameGuidTwice(line: string, id: string)
    requires ExamineLine(line) == Found(id)
    ensures Collect([line, line]) == Ok([id, id])
  {
    var none: seq<string> := [];
    assert Collect(none) == Ok(none);
    assert [line][..0] == none;
    assert Collect([line]) == Ok(none + [id]);
    assert none + [id] == [id];
    var two := [line, line];
    assert two[..|two| - 1] == [line];
    assert ExamineLine(two[|two| - 1]) == Found(id);
    assert Collect(two) == Ok([id] + [id]);
    assert [id] + [id] == [id, id];
  }

  lemma DistinctOfRepeat(id: string)
    ensures Distinct([id, id]) == [id]
  {
    var none: seq<string> := [];
    var ids := [id, id];
    assert Distinct(none) == none;
    assert [id][..0] == none;
    assert Distinct([id]) == [id];
    assert ids[..|ids| - 1] == [id];
  }

  lemma RepeatedGuid(line: string)
    requires line == "guid: x,"
    ensures Scan([line, line]) == Ok(["x"])
  {
    assert line == "" + Prefix + "x" + "," + "";
    ReferenceLine(line, "", "x", "");
    SameGuidOnTwoLines(line, "x");
  }

  /**
   * The marker test is case-sensitive although the pattern is not: a line
   * with only `GUID: b,` matches the pattern but is not examined at all.
   */
  lemma UpperCaseMarkerSkipped(line: string)
    requires line == "GUID: b,"
    ensures MatchAt(line, 0)
    ensures ExamineLine(line) == Skipped
  {
    assert CaptureEnd(line, 6) == Some(7);
    forall i: nat | i <= |line| ensures !OccursAt(line, Marker, i) {
      if i + |Marker| <= |line| {
        assert line[i..i + |Marker|][0] == line[i];
        assert line[i] in "GUID:";
      }
    }
  }

  /** A line with the marker and no match throws, and so does the whole scan. */
  lemma MarkerWithoutMatchThrows(line: string)
    requires line == "guid"
    ensures ExamineLine(line) == Throws
    ensures Scan([line]) == Err(NoMatch(0))
  {
    assert line[0..|Marker|] == Marker;
    assert OccursAt(line, Marker, 0);
    var none: seq<string> := [];
    assert [line][..0] == none;
  }
}
