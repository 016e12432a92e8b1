/**
 * The reference scanner of the prefab cache: how the lines of one asset file
 * are turned into the list of GUIDs the asset references.
 *
 * A line is examined only when it contains the literal "guid" (ordinal,
 * case-sensitive `string.Contains`). It is then split with the regular
 * expression `guid: (.*?),` under IgnoreCase, and element [1] of the split,
 * the capture of the leftmost match, is the line's GUID. A line that contains
 * "guid" but no match makes the split a single piece, so indexing [1] throws.
 * The collected GUIDs are de-duplicated, keeping first occurrences in order.
 */
module Scanner {
  import opened Results

  /** The literal a line must contain to be examined. */
  const Marker: string := "guid"

  /** The literal part of the pattern `guid: (.*?),`, matched ignoring case. */
  const Prefix: string := "guid: "

  // ---------------------------------------------------------------------------
  // Substrings

  predicate OccursAt(s: string, sub: string, i: nat)
  {
    i + |sub| <= |s| && s[i..i + |sub|] == sub
  }

  /** Ordinal substring test, as `string.Contains(string)`. */
  predicate Contains(s: string, sub: string)
  {
    exists i: nat :: i <= |s| && OccursAt(s, sub, i)
  }

  // ---------------------------------------------------------------------------
  // The regular expression `guid: (.*?),` with RegexOptions.IgnoreCase

  /** Case folding of the letters that occur in the pattern (ASCII). */
  function Lower(c: char): char
  {
    if 'A' <= c <= 'Z' then (c as int - 'A' as int + 'a' as int) as char else c
  }

  /** `guid: ` occurs at position i, ignoring case. */
  predicate PrefixAt(s: string, i: nat)
  {
    i + |Prefix| <= |s| && forall k :: 0 <= k < |Prefix| ==> Lower(s[i + k]) == Prefix[k]
  }

  /**
   * k is where the lazy group `(.*?)` started at `from` stops: the first ','
   * at or after `from`, with no line break before it ('.' does not match '\n').
   */
  predicate LazyEnd(s: string, from: nat, k: nat)
  {
    from <= k < |s| && s[k] == ',' && forall j :: from <= j < k ==> s[j] != ',' && s[j] != '\n'
  }

  /** Where the capture started at `from` ends, if the rest of the pattern can match. */
  function CaptureEnd(s: string, from: nat): (r: Option<nat>)
    requires from <= |s|
    decreases |s| - from
    ensures r.Some? ==> LazyEnd(s, from, r.value)
    ensures r.None? ==> forall k: nat :: !LazyEnd(s, from, k)
  {
    if from == |s| || s[from] == '\n' then None
    else if s[from] == ',' then Some(from)
    else
      var r := CaptureEnd(s, from + 1);
      assert forall k: nat :: LazyEnd(s, from, k) ==> LazyEnd(s, from + 1, k);
      r
  }

  /** The whole pattern matches starting at position i. */
  predicate MatchAt(s: string, i: nat)
  {
    PrefixAt(s, i) && CaptureEnd(s, i + |Prefix|).Some?
  }

  /** The text captured by the group of the match at position i. */
  function Captured(s: string, i: nat): (g: string)
    requires MatchAt(s, i)
    ensures ',' !in g && '\n' !in g
  {
    var k := CaptureEnd(s, i + |Prefix|).value;
    var g := s[i + |Prefix|..k];
    assert forall j :: 0 <= j < |g| ==> g[j] == s[i + |Prefix| + j];
    g
  }

  /** The leftmost match starting at or after `from`, as the regex engine finds it. */
  function LeftmostMatch(s: string, from: nat): (r: Option<nat>)
    requires from <= |s|
    decreases |s| - from
    ensures r.Some? ==> from <= r.value && MatchAt(s, r.value)
    ensures r.Some? ==> forall j: nat :: from <= j < r.value ==> !MatchAt(s, j)
    ensures r.None? ==> forall j: nat :: from <= j ==> !MatchAt(s, j)
  {
    if |s| < from + |Prefix| then None
    else if MatchAt(s, from) then Some(from)
    else LeftmostMatch(s, from + 1)
  }

  /**
   * `Regex.Split` from position `from`: the text before each match, followed
   * by the match's capture (captured groups are included in the split), and
   * the text after the last match. Matching resumes after each match's ','.
   */
  function SplitFrom(s: string, from: nat): (parts: seq<string>)
    requires from <= |s|
    decreases |s| - from
    ensures |parts| % 2 == 1
  {
    var m := LeftmostMatch(s, from);
    if m.None? then [s[from..]]
    else
      var i := m.value;
      var k := CaptureEnd(s, i + |Prefix|).value;
      [s[from..i], Captured(s, i)] + SplitFrom(s, k + 1)
  }

  /**
   * What the first pieces of a split are: the whole rest of the text when
   * there is no match, otherwise the text before the leftmost match and then
   * that match's capture.
   */
  lemma SplitFromPieces(s: string, from: nat)
    requires from <= |s|
    ensures |SplitFrom(s, from)| == 1 <==> LeftmostMatch(s, from).None?
    ensures LeftmostMatch(s, from).None? ==> SplitFrom(s, from) == [s[from..]]
    ensures LeftmostMatch(s, from).Some? ==>
      var i := LeftmostMatch(s, from).value;
      && |SplitFrom(s, from)| >= 3
      && SplitFrom(s, from)[0] == s[from..i]
      && SplitFrom(s, from)[1] == Captured(s, i)
  {
  }

  function RegexSplit(s: string): seq<string>
  {
    SplitFrom(s, 0)
  }

  // ---------------------------------------------------------------------------
  // One line

  /** What reading one line does: nothing, contribute a GUID, or throw. */
  datatype LineOutcome = Skipped | Found(id: string) | Throws

  /**
   * `if (line.Contains("guid")) GUIDs.Add(_regex.Split(line)[1]);`
   * The GUID is the capture of the leftmost match; the split has no element
   * [1] when there is no match at all.
   */
  function ExamineLine(line: string): (r: LineOutcome)
    ensures r.Skipped? <==> !Contains(line, Marker)
    ensures r.Throws? <==> Contains(line, Marker) && forall i: nat :: !MatchAt(line, i)
    ensures r.Found? ==>
      && LeftmostMatch(line, 0).Some?
      && r.id == Captured(line, LeftmostMatch(line, 0).value)
      && ',' !in r.id && '\n' !in r.id
  {
    if !Contains(line, Marker) then Skipped
    else
      SplitFromPieces(line, 0);
      var parts := RegexSplit(line);
      if |parts| < 2 then Throws else Found(parts[1])
  }

  /** The capture at position i stops where the capture at the same place in a longer line stops. */
  lemma {:induction false} CaptureEndExtends(s: string, t: string, from: nat)
    requires from <= |s|
    requires CaptureEnd(s, from).Some?
    ensures CaptureEnd(s + t, from) == CaptureEnd(s, from)
    decreases |s| - from
  {
    if s[from] != ',' {
      CaptureEndExtends(s, t, from + 1);
    }
  }

  /**
   * A match of `s + t` that starts early enough to stop at or before a ','
   * of `s` is already a match of `s`.
   */
  lemma MatchBeforeCommaSurvivesTruncation(s: string, t: string, j: nat, k: nat)
    requires k < |s| && s[k] == ',' && j + |Prefix| <= k
    ensures MatchAt(s + t, j) ==> MatchAt(s, j)
  {
    var st := s + t;
    if MatchAt(st, j) {
      var e := CaptureEnd(st, j + |Prefix|).value;
      assert st[k] == ',';
      assert e <= k;
      assert forall q :: j + |Prefix| <= q <= e ==> st[q] == s[q];
      assert LazyEnd(s, j + |Prefix|, e);
      forall q | 0 <= q < |Prefix| ensures Lower(s[j + q]) == Prefix[q] {
        assert st[j + q] == s[j + q];
      }
    }
  }

  /**
   * Only the leftmost `guid: …,` counts: once a line holds a complete match,
   * whatever follows it on the line (further `guid:` occurrences included)
   * does not change the GUID the line contributes.
   */
  lemma LaterOccurrencesIgnored(s: string, t: string)
    requires Contains(s, Marker)
    requires exists i: nat :: MatchAt(s, i)
    ensures ExamineLine(s + t) == ExamineLine(s)
    ensures ExamineLine(s).Found?
  {
    var i := LeftmostMatch(s, 0).value;
    var k := CaptureEnd(s, i + |Prefix|).value;
    var st := s + t;
    ContainsExtends(s, t, Marker);
    LeftmostMatchExtends(s, t);
    assert Captured(st, i) == Captured(s, i) by {
      assert st[i + |Prefix|..k] == s[i + |Prefix|..k];
    }
    assert !ExamineLine(s).Skipped? && !ExamineLine(s).Throws?;
    assert !ExamineLine(st).Skipped? && !ExamineLine(st).Throws?;
  }

  lemma ContainsExtends(s: string, t: string, sub: string)
    requires Contains(s, sub)
    ensures Contains(s + t, sub)
  {
    var m: nat :| m <= |s| && OccursAt(s, sub, m);
    assert (s + t)[m..m + |sub|] == s[m..m + |sub|];
    assert OccursAt(s + t, sub, m);
  }

  /** A complete match stays the leftmost one, with the same end, when text is appended. */
  lemma LeftmostMatchExtends(s: string, t: string)
    requires LeftmostMatch(s, 0).Some?
    ensures LeftmostMatch(s + t, 0) == LeftmostMatch(s, 0)
    ensures CaptureEnd(s + t, LeftmostMatch(s, 0).value + |Prefix|) == CaptureEnd(s, LeftmostMatch(s, 0).value + |Prefix|)
  {
    var i := LeftmostMatch(s, 0).value;
    var k := CaptureEnd(s, i + |Prefix|).value;
    var st := s + t;
    CaptureEndExtends(s, t, i + |Prefix|);
    forall q | 0 <= q < |Prefix| ensures Lower(st[i + q]) == Prefix[q] {
      assert st[i + q] == s[i + q];
    }
    assert MatchAt(st, i);
    forall j: nat | j < i ensures !MatchAt(st, j) {
      MatchBeforeCommaSurvivesTruncation(s, t, j, k);
    }
  }

  // ---------------------------------------------------------------------------
  // A whole asset

  /** The exception of a line that contains "guid" but no match, with its index. */
  datatype ScanError = NoMatch(line: nat)

  /** The list the read loop builds, or the exception it raises at the first bad line. */
  function Collect(lines: seq<string>): (r: Result<seq<string>, ScanError>)
    decreases |lines|
  {
    if lines == [] then Ok([])
    else
      match Collect(lines[..|lines| - 1])
      case Err(e) => Err(e)
      case Ok(ids) =>
        match ExamineLine(lines[|lines| - 1])
        case Skipped => Ok(ids)
        case Found(g) => Ok(ids + [g])
        case Throws => Err(NoMatch(|lines| - 1))
  }

  /** The de-duplicated scan result of ProcessCacheForAsset. */
  function Scan(lines: seq<string>): (r: Result<seq<string>, ScanError>)
    ensures r.Ok? ==> NoDuplicates(r.value)
  {
    match Collect(lines)
    case Err(e) => Err(e)
    case Ok(ids) => Ok(Distinct(ids))
  }

  /**
   * The read loop succeeds exactly when no line throws, and then it has
   * collected exactly the GUIDs the lines contribute, at most one per line.
   */
  lemma {:induction false} CollectOk(lines: seq<string>)
    ensures Collect(lines).Ok? <==> forall n :: 0 <= n < |lines| ==> !ExamineLine(lines[n]).Throws?
    ensures Collect(lines).Ok? ==> |Collect(lines).value| <= |lines|
    ensures Collect(lines).Ok? ==> forall g ::
      g in Collect(lines).value <==> exists n :: 0 <= n < |lines| && ExamineLine(lines[n]) == Found(g)
  {
    if lines != [] {
      var init := lines[..|lines| - 1];
      CollectOk(init);
      assert forall n :: 0 <= n < |init| ==> init[n] == lines[n];
    }
  }

  /** When the read loop throws, it is at the first line that contains "guid" but no match. */
  lemma {:induction false} CollectErr(lines: seq<string>)
    ensures Collect(lines).Err? ==>
      var n := Collect(lines).error.line;
      && n < |lines|
      && Contains(lines[n], Marker) && (forall i: nat :: !MatchAt(lines[n], i))
      && forall m :: 0 <= m < n ==> !ExamineLine(lines[m]).Throws?
  {
    if lines != [] {
      var init := lines[..|lines| - 1];
      CollectErr(init);
      CollectOk(init);
      assert forall n :: 0 <= n < |init| ==> init[n] == lines[n];
    }
  }

  /** Once a prefix of the lines throws, reading further lines changes nothing. */
  lemma {:induction false} CollectErrPersists(lines: seq<string>, n: nat)
    requires n <= |lines|
    requires Collect(lines[..n]).Err?
    ensures Collect(lines) == Collect(lines[..n])
    decreases |lines|
  {
    if n < |lines| {
      var init := lines[..|lines| - 1];
      assert init[..n] == lines[..n];
      CollectErrPersists(init, n);
    } else {
      assert lines[..n] == lines;
    }
  }

  /**
   * The scan result, when there is one, lists each GUID some line contributes,
   * once; it fails exactly when some line contains "guid" but no match.
   */
  lemma ScanMeaning(lines: seq<string>)
    ensures Scan(lines).Ok? <==> forall n :: 0 <= n < |lines| ==> !ExamineLine(lines[n]).Throws?
    ensures Scan(lines).Ok? ==> NoDuplicates(Scan(lines).value)
    ensures Scan(lines).Ok? ==> forall g ::
      g in Scan(lines).value <==> exists n :: 0 <= n < |lines| && ExamineLine(lines[n]) == Found(g)
  {
    CollectOk(lines);
  }

  /** The read loop of ProcessCacheForAsset followed by `Distinct`. */
  method ScanLines(lines: seq<string>) returns (r: Result<seq<string>, ScanError>)
    ensures r == Scan(lines)
  {
    var ids: seq<string> := [];
    var n := 0;
    while n < |lines|
      invariant 0 <= n <= |lines|
      invariant Collect(lines[..n]) == Ok(ids)
    {
      var line := lines[n];
      assert lines[..n + 1][..n] == lines[..n];
      if Contains(line, Marker) {
        var parts := RegexSplit(line);
        if |parts| < 2 {
          CollectErrPersists(lines, n + 1);
          return Err(NoMatch(n));
        }
        ids := ids + [parts[1]];
      }
      n := n + 1;
    }
    assert lines[..n] == lines;
    r := Ok(Distinct(ids));
  }

  // ---------------------------------------------------------------------------
  // Distinct

  predicate NoDuplicates<T(==)>(s: seq<T>)
  {
    forall i, j :: 0 <= i < j < |s| ==> s[i] != s[j]
  }

  /** LINQ `Distinct`: each element once, at its first occurrence. */
  function Distinct(s: seq<string>): (r: seq<string>)
    ensures NoDuplicates(r)
    ensures forall x :: x in r <==> x in s
    ensures |r| <= |s|
    decreases |s|
  {
    if s == [] then []
    else
      var d := Distinct(s[..|s| - 1]);
      assert forall x :: x in s <==> x in s[..|s| - 1] || x == s[|s| - 1];
      if s[|s| - 1] in d then d else d + [s[|s| - 1]]
  }

  /** The position of the first occurrence of x in s. */
  function IndexOf(s: seq<string>, x: string): (k: nat)
    requires x in s
    ensures k < |s| && s[k] == x && x !in s[..k]
  {
    if s[0] == x then 0
    else
      var k := 1 + IndexOf(s[1..], x);
      assert s[..k] == [s[0]] + s[1..][..k - 1];
      k
  }

  lemma {:induction false} IndexOfInPrefix(s: seq<string>, n: nat, x: string)
    requires n <= |s| && x in s[..n]
    ensures IndexOf(s, x) == IndexOf(s[..n], x)
  {
    var k := IndexOf(s[..n], x);
    var k' := IndexOf(s, x);
    assert s[..n][..k] == s[..k];
  }

  /** `Distinct` keeps elements in the order of their first occurrences. */
  lemma {:induction false} DistinctKeepsFirstOccurrenceOrder(s: seq<string>)
    ensures forall i, j :: 0 <= i < j < |Distinct(s)| ==>
      IndexOf(s, Distinct(s)[i]) < IndexOf(s, Distinct(s)[j])
    decreases |s|
  {
    if s != [] {
      var init := s[..|s| - 1];
      var d := Distinct(init);
      DistinctKeepsFirstOccurrenceOrder(init);
      forall x | x in d ensures IndexOf(s, x) == IndexOf(init, x) && IndexOf(s, x) < |s| - 1 {
        IndexOfInPrefix(s, |s| - 1, x);
      }
      if s[|s| - 1] !in d {
        assert s[|s| - 1] !in init;
        assert s[..|s| - 1] == init;
        assert IndexOf(s, s[|s| - 1]) == |s| - 1;
      }
    }
  }
}
