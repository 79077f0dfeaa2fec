/**
 * `minerva.persistence.write_run_markers` and `read_run_markers`: the marker
 * of each session's last run, kept between runs as one
 * `session-id<TAB>marker` line per session.  The file itself is not modelled:
 * the writer returns the text it would write and the reader takes the text
 * it would read.
 */
module RunMarkers {
  import opened Wrappers
  import opened Seqs
  import opened Text
  import opened Assoc
  import opened Order

  type Markers = Dict<string, string>

  // ---------------------------------------------------------------------
  // write_run_markers

  /** Python's order on `(session_id, marker)` tuples. */
  predicate EntryLe(a: (string, string), b: (string, string)) {
    StrLt(a.0, b.0) || (a.0 == b.0 && StrLe(a.1, b.1))
  }

  lemma EntryLeTotalPreorder()
    ensures TotalPreorder(EntryLe)
  {
    forall a: (string, string), b: (string, string)
      ensures EntryLe(a, b) || EntryLe(b, a)
    {
      StrLeTotal(a.0, b.0);
      StrLeTotal(a.1, b.1);
    }
    forall a: (string, string), b: (string, string), c: (string, string) | EntryLe(a, b) && EntryLe(b, c)
      ensures EntryLe(a, c)
    {
      if a.0 == b.0 && b.0 == c.0 {
        StrLeTransitive(a.1, b.1, c.1);
      } else if a.0 != b.0 && b.0 != c.0 {
        StrLeTransitive(a.0, b.0, c.0);
        if a.0 == c.0 {
          StrLeAntisymmetric(a.0, b.0);
        }
      }
    }
  }

  /** `f"{session_id}\t{marker}"`. */
  function MarkerLine(e: (string, string)): string {
    e.0 + "\t" + e.1
  }

  /** The list comprehension over the sorted entries. */
  function MarkerLines(es: seq<(string, string)>): (lines: seq<string>)
    ensures |lines| == |es| && forall i :: 0 <= i < |es| ==> lines[i] == MarkerLine(es[i])
  {
    seq(|es|, i requires 0 <= i < |es| => MarkerLine(es[i]))
  }

  /** The text `write_run_markers` writes: the lines joined by `\n`, plus a final `\n` when there are any. */
  function WrittenText(markers: Markers): string {
    var lines := MarkerLines(Sort(markers, EntryLe));
    var contents := Join("\n", lines);
    if lines != [] then contents + "\n" else contents
  }

  /** An empty map writes `""`; any other ends with a newline. */
  lemma WrittenTextEnd(markers: Markers)
    ensures WrittenText(markers) == "" <==> markers == []
    ensures markers != [] ==> WrittenText(markers)[|WrittenText(markers)| - 1] == '\n'
  {
    var sorted := Sort(markers, EntryLe);
    if markers != [] {
      assert |multiset(sorted)| == |multiset(markers)|;
      assert sorted != [];
    }
  }

  predicate NoLineBreaks(markers: Markers) {
    forall i :: 0 <= i < |markers| ==> NoneOf(markers[i].0, IsLineBreak) && NoneOf(markers[i].1, IsLineBreak)
  }

  /** Every entry of the sorted map is an entry of the map. */
  lemma SortedEntry(markers: Markers, k: nat)
    requires k < |Sort(markers, EntryLe)|
    ensures exists j :: 0 <= j < |markers| && markers[j] == Sort(markers, EntryLe)[k]
  {
    assert Sort(markers, EntryLe)[k] in multiset(markers);
  }

  lemma MarkerLineNoBreaks(e: (string, string))
    requires NoneOf(e.0, IsLineBreak) && NoneOf(e.1, IsLineBreak)
    ensures NoneOf(MarkerLine(e), IsLineBreak)
  {
    var line := MarkerLine(e);
    forall k | 0 <= k < |line|
      ensures !IsLineBreak(line[k])
    {
      if k < |e.0| {
        assert line[k] == e.0[k];
      } else if k > |e.0| {
        assert line[k] == e.1[k - |e.0| - 1];
      }
    }
  }

  lemma SortNoLineBreaks(markers: Markers)
    requires NoLineBreaks(markers)
    ensures forall k :: 0 <= k < |Sort(markers, EntryLe)| ==> NoneOf(MarkerLines(Sort(markers, EntryLe))[k], IsLineBreak)
  {
    var sorted := Sort(markers, EntryLe);
    forall k | 0 <= k < |sorted|
      ensures NoneOf(MarkerLines(sorted)[k], IsLineBreak)
    {
      SortedEntry(markers, k);
      MarkerLineNoBreaks(sorted[k]);
    }
  }

  /** The entries are written ordered by session id, every entry once. */
  lemma WrittenOrder(markers: Markers)
    ensures var sorted := Sort(markers, EntryLe);
      && multiset(sorted) == multiset(markers)
      && Sorted(sorted, EntryLe)
      && forall i, j :: 0 <= i < j < |sorted| ==> StrLe(sorted[i].0, sorted[j].0)
  {
    EntryLeTotalPreorder();
    SortSorted(markers, EntryLe);
    var sorted := Sort(markers, EntryLe);
    forall i, j | 0 <= i < j < |sorted|
      ensures StrLe(sorted[i].0, sorted[j].0)
    {
      StrLeTotal(sorted[i].0, sorted[j].0);
    }
  }

  /** The text splits back into one `id<TAB>marker` line per entry of the sorted map. */
  lemma WrittenLines(markers: Markers)
    requires NoLineBreaks(markers)
    ensures SplitLines(WrittenText(markers)) == MarkerLines(Sort(markers, EntryLe))
  {
    var lines := MarkerLines(Sort(markers, EntryLe));
    SortNoLineBreaks(markers);
    if lines != [] {
      TerminatedIsJoin(lines);
    }
    SplitLinesOfTerminated(lines);
  }

  // ---------------------------------------------------------------------
  // read_run_markers

  /** What one line of the file says. */
  datatype LineRead = Blank | Entry(sessionId: string, marker: string) | Legacy

  /**
   * A stripped line splits at its first tab, or else at its first whitespace
   * run when it holds a space; the marker is stripped.  A line without a
   * delimiter is in the legacy one-marker format.
   */
  function ParseLine(rawLine: string): LineRead {
    var line := Strip(rawLine);
    if line == [] then Blank
    else if '\t' in line then
      var i := IndexOf(line, '\t');
      Entry(line[..i], Strip(line[i + 1..]))
    else if ' ' in line then
      var i := FindFirst(line, IsSpace);
      Entry(line[..i], Strip(TrimLeft(line[i..], IsSpace)))
    else Legacy
  }

  /** An entry has a non-empty session id without a tab, and a stripped marker. */
  lemma ParseLineShape(rawLine: string)
    ensures ParseLine(rawLine).Entry? ==>
      var e := ParseLine(rawLine);
      e.sessionId != [] && '\t' !in e.sessionId && IsTrimmed(e.marker)
    ensures ParseLine(rawLine).Blank? <==> forall k :: 0 <= k < |rawLine| ==> IsSpace(rawLine[k])
  {
    StripEmpty(rawLine);
  }

  /** The reading of every line, in order. */
  function Parsed(lines: seq<string>): (rows: seq<LineRead>)
    ensures |rows| == |lines| && forall k :: 0 <= k < |lines| ==> rows[k] == ParseLine(lines[k])
  {
    seq(|lines|, k requires 0 <= k < |lines| => ParseLine(lines[k]))
  }

  /** One turn of the loop: `None` once a legacy line has been seen. */
  function ReadStep(acc: Option<Markers>, read: LineRead): Option<Markers> {
    match acc
    case None => None
    case Some(markers) =>
      match read
      case Blank => acc
      case Entry(sessionId, marker) => Some(Put(markers, sessionId, marker))
      case Legacy => None
  }

  /** The loop over the lines: the map built, or `None` for a legacy file. */
  function Fold(rows: seq<LineRead>): (r: Option<Markers>)
    ensures r.Some? ==> UniqueKeys(r.value)
    decreases |rows|
  {
    if rows == [] then Some([]) else ReadStep(Fold(rows[..|rows| - 1]), rows[|rows| - 1])
  }

  /** What `read_run_markers` returns for the text of the file. */
  function ReadMarkersOf(text: string): Markers {
    Fold(Parsed(SplitLines(text))).GetOr([])
  }

  lemma FoldSnoc(rows: seq<LineRead>, i: nat)
    requires i < |rows|
    ensures Fold(rows[..i + 1]) == ReadStep(Fold(rows[..i]), rows[i])
  {
    assert rows[..i + 1][..i] == rows[..i];
  }

  /** Once a legacy line is seen the result stays `None`. */
  lemma {:induction false} FoldStaysNone(rows: seq<LineRead>, i: nat, n: nat)
    requires i <= n <= |rows| && Fold(rows[..i]) == None
    ensures Fold(rows[..n]) == None
    decreases n
  {
    if n > i {
      FoldStaysNone(rows, i, n - 1);
      FoldSnoc(rows, n - 1);
    }
  }

  /**
   * `read_run_markers` on the text of the file: blank lines are skipped, an
   * entry line sets its id (a later line for the same id wins) and a line in
   * the legacy format discards everything read.
   */
  method ReadRunMarkers(text: string) returns (markers: Markers)
    ensures markers == ReadMarkersOf(text)
  {
    var lines := SplitLines(text);
    ghost var rows := Parsed(lines);
    markers := [];
    for i := 0 to |lines|
      invariant Fold(rows[..i]) == Some(markers)
    {
      FoldSnoc(rows, i);
      var read := SplitMarkerLine(lines[i]);
      assert read == rows[i];
      match read
      case Blank =>
        continue;
      case Legacy =>
        FoldStaysNone(rows, i + 1, |rows|);
        assert rows[..|rows|] == rows;
        return [];
      case Entry(sessionId, marker) =>
        markers := Put(markers, sessionId, marker);
    }
    assert rows[..|rows|] == rows;
  }

  /** The split of one line inside the read loop: blank, an id and its stripped marker, or the legacy format. */
  method SplitMarkerLine(rawLine: string) returns (read: LineRead)
    ensures read == ParseLine(rawLine)
  {
    var line := Strip(rawLine);
    if line == [] {
      return Blank;
    }
    var sessionId, marker;
    if '\t' in line {
      var j := IndexOf(line, '\t');
      sessionId, marker := line[..j], line[j + 1..];
    } else if ' ' in line {
      var j := FindFirst(line, IsSpace);
      sessionId, marker := line[..j], TrimLeft(line[j..], IsSpace);
    } else {
      return Legacy;
    }
    read := Entry(sessionId, Strip(marker));
  }

  /** A reference reading of one session: the marker of the last entry line for it. */
  function LastMarker(rows: seq<LineRead>, sessionId: string): Option<string>
    decreases |rows|
  {
    if rows == [] then None
    else
      match rows[|rows| - 1]
      case Entry(id, marker) =>
        if id == sessionId then Some(marker) else LastMarker(rows[..|rows| - 1], sessionId)
      case _ => LastMarker(rows[..|rows| - 1], sessionId)
  }

  /**
   * The file is read as legacy, giving `{}`, exactly when some line lacks a
   * delimiter; blank lines are skipped; otherwise each session maps to the
   * marker of its last line, a later duplicate overriding an earlier one.
   */
  lemma {:induction false} FoldMeaning(rows: seq<LineRead>)
    ensures Fold(rows).None? <==> exists k :: 0 <= k < |rows| && rows[k].Legacy?
    ensures Fold(rows).Some? ==> forall id :: Get(Fold(rows).value, id) == LastMarker(rows, id)
    decreases |rows|
  {
    if rows != [] {
      var n := |rows| - 1;
      var init, last := rows[..n], rows[n];
      FoldMeaning(init);
      LegacySnoc(rows);
      assert Fold(rows) == ReadStep(Fold(init), last);
      if Fold(rows).Some? {
        var m := Fold(init).value;
        forall id ensures Get(Fold(rows).value, id) == LastMarker(rows, id) {
          if last.Entry? && last.sessionId == id {
            assert LastMarker(rows, id) == Some(last.marker);
          } else {
            assert LastMarker(rows, id) == LastMarker(init, id);
          }
        }
      }
    }
  }

  predicate HasLegacy(rows: seq<LineRead>) {
    exists k :: 0 <= k < |rows| && rows[k].Legacy?
  }

  /** A legacy line is among the rows when it is among the earlier ones or is the last one. */
  lemma LegacySnoc(rows: seq<LineRead>)
    requires rows != []
    ensures HasLegacy(rows) <==> HasLegacy(rows[..|rows| - 1]) || rows[|rows| - 1].Legacy?
  {
    var init := rows[..|rows| - 1];
    assert forall k :: 0 <= k < |init| ==> init[k] == rows[k];
  }

  // ---------------------------------------------------------------------
  // Round trip

  /** A line written for a session id and marker without whitespace rows back as that entry. */
  lemma ParseMarkerLine(e: (string, string))
    requires IsWord(e.0) && IsWord(e.1)
    ensures ParseLine(MarkerLine(e)) == Entry(e.0, e.1)
  {
    var line := MarkerLine(e);
    assert line == e.0 + ['\t'] + e.1;
    assert IsTrimmed(line) by {
      assert line[0] == e.0[0];
      assert line[|line| - 1] == e.1[|e.1| - 1];
    }
    StripOfTrimmed(line);
    assert '\t' !in e.0 by {
      assert IsSpace('\t');
    }
    IndexOfFirst(e.0, '\t', e.1);
    assert line[|e.0|] == '\t';
    assert line[..|e.0|] == e.0;
    assert line[|e.0| + 1..] == e.1;
    assert IsTrimmed(e.1);
    StripOfTrimmed(e.1);
  }

  predicate AllWords(markers: Markers) {
    forall i :: 0 <= i < |markers| ==> IsWord(markers[i].0) && IsWord(markers[i].1)
  }

  /** Reading the lines of a map with distinct ids rebuilds it entry by entry, in order. */
  lemma {:induction false} FoldOfEntries(es: Markers)
    requires UniqueKeys(es) && AllWords(es)
    ensures Fold(Parsed(MarkerLines(es))) == Some(es)
    decreases |es|
  {
    if es != [] {
      var n := |es| - 1;
      var init, last := es[..n], es[n];
      var rows := Parsed(MarkerLines(es));
      assert init + [last] == es;
      assert Fold(rows[..n]) == Some(init) by {
        EntriesPrefix(es, n);
        FoldOfEntries(init);
        RowsPrefix(es, n);
      }
      assert rows[n] == Entry(last.0, last.1) by {
        ParseMarkerLine(last);
      }
      FoldEntryStep(rows, init, last);
    }
  }

  /** A prefix of a map with distinct word ids and markers has distinct word ids and markers. */
  lemma EntriesPrefix(es: Markers, n: nat)
    requires n <= |es| && UniqueKeys(es) && AllWords(es)
    ensures UniqueKeys(es[..n]) && AllWords(es[..n])
  {
    assert forall i :: 0 <= i < n ==> es[..n][i] == es[i];
  }

  /** The rows read from the first `n` written lines are those read from the lines of the first `n` entries. */
  lemma RowsPrefix(es: Markers, n: nat)
    requires n <= |es|
    ensures Parsed(MarkerLines(es))[..n] == Parsed(MarkerLines(es[..n]))
  {
    var rows, rows' := Parsed(MarkerLines(es)), Parsed(MarkerLines(es[..n]));
    forall k | 0 <= k < n
      ensures rows[k] == rows'[k]
    {
      assert rows[k] == ParseLine(MarkerLine(es[k]));
      assert rows'[k] == ParseLine(MarkerLine(es[..n][k]));
    }
  }

  /** Reading one more entry line for a new id appends that entry. */
  lemma FoldEntryStep(rows: seq<LineRead>, init: Markers, last: (string, string))
    requires |rows| == |init| + 1 && Fold(rows[..|init|]) == Some(init)
    requires rows[|init|] == Entry(last.0, last.1) && UniqueKeys(init + [last])
    ensures Fold(rows) == Some(init + [last])
  {
    var n := |init|;
    FoldSnoc(rows, n);
    assert rows[..n + 1] == rows;
    PutNew(init, last.0, last.1);
  }

  /** Putting an id not yet present appends its entry. */
  lemma PutNew(d: Markers, k: string, v: string)
    requires UniqueKeys(d + [(k, v)])
    ensures Put(d, k, v) == d + [(k, v)]
  {
    forall j | 0 <= j < |d|
      ensures d[j].0 != k
    {
      assert (d + [(k, v)])[j] == d[j];
      assert (d + [(k, v)])[|d|] == (k, v);
    }
    IndexOfKeyIs(d, k, |d|);
  }

  lemma {:induction false} InsertUnique(x: (string, string), r: Markers, le: ((string, string), (string, string)) -> bool)
    requires UniqueKeys(r) && forall e :: e in r ==> e.0 != x.0
    ensures UniqueKeys(Insert(x, r, le))
    decreases |r|
  {
    if r == [] || le(x, r[0]) {
      ConsUnique(x, r);
    } else {
      var t := Insert(x, r[1..], le);
      assert UniqueKeys(r[1..]) && forall e :: e in r[1..] ==> e.0 != x.0 by {
        assert forall k :: 0 <= k < |r| - 1 ==> r[1..][k] == r[k + 1];
      }
      InsertUnique(x, r[1..], le);
      forall e | e in t
        ensures e.0 != r[0].0
      {
        assert e in multiset(t);
        if e != x {
          assert e in multiset(r[1..]);
          var j :| 0 <= j < |r[1..]| && r[1..][j] == e;
          assert r[j + 1] == e;
        }
      }
      ConsUnique(r[0], t);
    }
  }

  /** An entry whose id the rest does not use, in front of entries with distinct ids, keeps the ids distinct. */
  lemma ConsUnique(y: (string, string), t: Markers)
    requires UniqueKeys(t) && forall e :: e in t ==> e.0 != y.0
    ensures UniqueKeys([y] + t)
  {
    var s := [y] + t;
    forall i, j | 0 <= i < j < |s|
      ensures s[i].0 != s[j].0
    {
      assert s[j] == t[j - 1];
      if i > 0 {
        assert s[i] == t[i - 1];
      } else {
        assert t[j - 1] in t;
      }
    }
  }

  /** Sorting keeps the session ids distinct. */
  lemma {:induction false} SortUnique(s: Markers, le: ((string, string), (string, string)) -> bool)
    requires UniqueKeys(s)
    ensures UniqueKeys(Sort(s, le))
    decreases |s|
  {
    if s != [] {
      SortUnique(s[1..], le);
      forall e | e in Sort(s[1..], le)
        ensures e.0 != s[0].0
      {
        assert e in multiset(Sort(s[1..], le));
        var j :| 0 <= j < |s[1..]| && s[1..][j] == e;
        assert s[j + 1] == e;
      }
      InsertUnique(s[0], Sort(s[1..], le), le);
    }
  }

  /** Two maps with distinct ids and the same entries agree on every id. */
  lemma GetOfSameEntries(a: Markers, b: Markers, id: string)
    requires UniqueKeys(a) && UniqueKeys(b)
    requires forall e :: e in a <==> e in b
    ensures Get(a, id) == Get(b, id)
  {
    var i := IndexOfKey(a, id);
    if i < |a| {
      assert a[i] in b;
      var j :| 0 <= j < |b| && b[j] == a[i];
      IndexOfKeyIs(b, id, j);
    } else {
      forall j | 0 <= j < |b|
        ensures b[j].0 != id
      {
        assert b[j] in a;
        var i' :| 0 <= i' < |a| && a[i'] == b[j];
      }
      IndexOfKeyIs(b, id, |b|);
    }
  }

  /**
   * Reading back what was written gives the same map, in session-id order,
   * when session ids are distinct and neither ids nor markers are empty or
   * hold whitespace.
   */
  lemma RoundTrip(markers: Markers)
    requires UniqueKeys(markers) && AllWords(markers)
    ensures ReadMarkersOf(WrittenText(markers)) == Sort(markers, EntryLe)
    ensures forall id :: Get(ReadMarkersOf(WrittenText(markers)), id) == Get(markers, id)
  {
    var sorted := Sort(markers, EntryLe);
    WordsNoLineBreaks(markers);
    WrittenLines(markers);
    SortKeepsWords(markers);
    SortUnique(markers, EntryLe);
    FoldOfEntries(sorted);
    SortKeepsGets(markers);
  }

  lemma WordsNoLineBreaks(markers: Markers)
    requires AllWords(markers)
    ensures NoLineBreaks(markers)
  {
    forall c
      ensures IsLineBreak(c) ==> IsSpace(c)
    {
      LineBreakIsSpace(c);
    }
  }

  lemma SortKeepsWords(markers: Markers)
    requires AllWords(markers)
    ensures AllWords(Sort(markers, EntryLe))
  {
    var sorted := Sort(markers, EntryLe);
    forall k | 0 <= k < |sorted|
      ensures IsWord(sorted[k].0) && IsWord(sorted[k].1)
    {
      SortedEntry(markers, k);
    }
  }

  lemma SortKeepsGets(markers: Markers)
    requires UniqueKeys(markers)
    ensures forall id :: Get(Sort(markers, EntryLe), id) == Get(markers, id)
  {
    var sorted := Sort(markers, EntryLe);
    SortUnique(markers, EntryLe);
    assert forall e :: e in sorted <==> e in multiset(markers);
    forall id
      ensures Get(sorted, id) == Get(markers, id)
    {
      GetOfSameEntries(sorted, markers, id);
    }
  }
}
