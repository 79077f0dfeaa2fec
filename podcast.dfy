/**
 * `minerva.tools.podcast`: the one-line topic summary kept for each generated
 * podcast, and the window of earlier summaries read back from the history
 * file.  Reading the file is left to the caller: the history functions take
 * its text.
 */
module PodcastTopics {
  import opened Seqs
  import opened Text

  // ---------------------------------------------------------------------
  // Whitespace collapsing: re.sub(r"\s+", " ", text)

  /** Whitespace other than the plain space. */
  predicate IsOtherSpace(c: char) { IsSpace(c) && c != ' ' }

  /** Every whitespace run replaced by one space. */
  function CollapseSpace(s: string): (r: string)
    ensures |r| == 0 <==> |s| == 0
    ensures r != [] ==> (IsSpace(s[0]) <==> r[0] == ' ') && (r[0] == ' ' || r[0] == s[0])
    decreases |s|
  {
    if s == [] then []
    else if IsSpace(s[0]) then " " + CollapseSpace(TrimLeft(s, IsSpace))
    else
      var i := FindFirst(s, IsSpace);
      s[..i] + CollapseSpace(s[i..])
  }

  /** No whitespace but single spaces. */
  predicate SingleSpaced(r: string) {
    && NoneOf(r, IsOtherSpace)
    && forall k :: 0 <= k < |r| - 1 ==> !(r[k] == ' ' && r[k + 1] == ' ')
  }

  lemma {:induction false} CollapseSingleSpaced(s: string)
    ensures SingleSpaced(CollapseSpace(s))
    decreases |s|
  {
    if s != [] {
      if IsSpace(s[0]) {
        var t := TrimLeft(s, IsSpace);
        CollapseSingleSpaced(t);
        SpaceThenSingleSpaced(CollapseSpace(t));
      } else {
        var i := FindFirst(s, IsSpace);
        CollapseSingleSpaced(s[i..]);
        WordThenSingleSpaced(s[..i], CollapseSpace(s[i..]));
      }
    }
  }

  lemma SpaceThenSingleSpaced(c: string)
    requires SingleSpaced(c) && (c == [] || c[0] != ' ')
    ensures SingleSpaced(" " + c)
  {
    var r := " " + c;
    assert forall k :: 1 <= k < |r| ==> r[k] == c[k - 1];
  }

  lemma WordThenSingleSpaced(w: string, c: string)
    requires NoneOf(w, IsSpace) && SingleSpaced(c)
    ensures SingleSpaced(w + c)
  {
    var r := w + c;
    assert forall k :: 0 <= k < |w| ==> r[k] == w[k];
    assert forall k :: |w| <= k < |r| ==> r[k] == c[k - |w|];
  }

  /** Stripping any characters from a single-spaced text leaves it single-spaced. */
  lemma {:induction false} TrimSingleSpaced(s: string, drop: char -> bool)
    requires SingleSpaced(s)
    ensures SingleSpaced(Trim(s, drop))
    decreases |s|
  {
    if s != [] && drop(s[0]) {
      assert forall k :: 0 <= k < |s| - 1 ==> s[1..][k] == s[k + 1];
      TrimSingleSpaced(s[1..], drop);
    } else if s != [] && drop(s[|s| - 1]) {
      assert forall k :: 0 <= k < |s| - 1 ==> s[..|s| - 1][k] == s[k];
      TrimSingleSpaced(s[..|s| - 1], drop);
    }
  }

  /** Skipping leading whitespace does not change the words. */
  lemma {:induction false} SplitWsTrimLeft(s: string)
    ensures SplitWs(TrimLeft(s, IsSpace)) == SplitWs(s)
    decreases |s|
  {
    if s != [] && IsSpace(s[0]) {
      SplitWsTrimLeft(s[1..]);
    }
  }

  /** Collapsing keeps the words, in order: `collapsed.split() == text.split()`. */
  lemma {:induction false} CollapseKeepsWords(s: string)
    ensures SplitWs(CollapseSpace(s)) == SplitWs(s)
    decreases |s|
  {
    if s != [] {
      if IsSpace(s[0]) {
        var t := TrimLeft(s, IsSpace);
        CollapseKeepsWords(t);
        SplitWsSpace(' ', CollapseSpace(t));
        assert CollapseSpace(s) == [' '] + CollapseSpace(t);
        SplitWsTrimLeft(s);
      } else {
        var i := FindFirst(s, IsSpace);
        var w := s[..i];
        CollapseKeepsWords(s[i..]);
        assert IsWord(w);
        SplitWsWord(w, CollapseSpace(s[i..]));
      }
    }
  }

  // ---------------------------------------------------------------------
  // normalize_topic_summary

  /** The characters `strip(" -:\t")` removes. */
  predicate IsTopicEdge(c: char) { c == ' ' || c == '-' || c == ':' || c == '\t' }

  /** `re.sub(r"\s+", " ", text).strip(" -:\t")`. */
  function CleanSummary(text: string): string {
    Trim(CollapseSpace(text), IsTopicEdge)
  }

  const DefaultMaxLength: int := 160

  /** The three characters the source writes, the UTF-8 bytes of `…` read as cp1252. */
  const MisencodedEllipsis: string := "\U{e2}\U{20ac}\U{a6}"

  /** The one-character ellipsis the truncation intends. */
  const Ellipsis: string := "\U{2026}"

  /** Python `s[:n]`, a negative `n` counting from the end. */
  function SliceTo(s: string, n: int): (r: string)
    ensures |r| <= |s| && r == s[..|r|]
    ensures 0 <= n ==> |r| == if n <= |s| then n else |s|
  {
    if n >= 0 then s[..if n <= |s| then n else |s|]
    else s[..if |s| + n >= 0 then |s| + n else 0]
  }

  /**
   * `normalize_topic_summary` with the given ellipsis: the cleaned text when it
   * fits, else its first `maxLength - 1` characters, right-stripped, followed by
   * the ellipsis.
   */
  function SummaryWith(text: string, maxLength: int, ellipsis: string): string {
    var clean := CleanSummary(text);
    if |clean| <= maxLength then clean
    else TrimRight(SliceTo(clean, maxLength - 1), IsSpace) + ellipsis
  }

  /** `normalize_topic_summary` as written, with the mis-encoded ellipsis. */
  function NormalizeTopicSummaryAsWritten(text: string, maxLength: int): string {
    SummaryWith(text, maxLength, MisencodedEllipsis)
  }

  /** `normalize_topic_summary` with the intended one-character ellipsis. */
  function NormalizeTopicSummary(text: string, maxLength: int): string {
    SummaryWith(text, maxLength, Ellipsis)
  }

  /** The cleaned text is single-spaced, keeps the words of the input and has no edge character at either end. */
  lemma CleanSummaryShape(text: string)
    ensures var clean := CleanSummary(text);
      && SingleSpaced(clean) && EndsKept(clean, IsTopicEdge) && IsTrimmed(clean)
      && NoneOf(clean, IsLineBreak)
  {
    CollapseSingleSpaced(text);
    TrimSingleSpaced(CollapseSpace(text), IsTopicEdge);
    var clean := CleanSummary(text);
    forall k | 0 <= k < |clean|
      ensures !IsLineBreak(clean[k])
    {
      LineBreakIsSpace(clean[k]);
    }
  }

  /**
   * A summary that fits is returned as cleaned; a longer one is a prefix of
   * the cleaned text, at most `maxLength - 1` characters and not ending in
   * whitespace, followed by the ellipsis.
   */
  lemma SummaryShape(text: string, maxLength: int, ellipsis: string)
    requires maxLength >= 1
    ensures var clean := CleanSummary(text);
      var r := SummaryWith(text, maxLength, ellipsis);
      && (|clean| <= maxLength ==> r == clean)
      && (|clean| > maxLength ==>
            exists n :: 0 <= n <= maxLength - 1 && r == clean[..n] + ellipsis && (n == 0 || !IsSpace(clean[n - 1])))
  {
    var clean := CleanSummary(text);
    if |clean| > maxLength {
      var p := TrimRight(SliceTo(clean, maxLength - 1), IsSpace);
      assert p == clean[..|p|];
    }
  }

  /**
   * With any ellipsis that is a single word the summary stays on one line and
   * has no whitespace at either end, and truncation adds at most the
   * ellipsis to the `maxLength - 1` characters it keeps.
   */
  lemma SummaryLine(text: string, maxLength: int, ellipsis: string)
    requires maxLength >= 1 && IsWord(ellipsis)
    ensures var r := SummaryWith(text, maxLength, ellipsis);
      && |r| <= maxLength - 1 + |ellipsis|
      && NoneOf(r, IsLineBreak) && IsTrimmed(r)
  {
    var clean := CleanSummary(text);
    CleanSummaryShape(text);
    if |clean| > maxLength {
      var p := TrimRight(SliceTo(clean, maxLength - 1), IsSpace);
      assert p == clean[..|p|];
      var r := p + ellipsis;
      assert forall k :: 0 <= k < |p| ==> r[k] == clean[k];
      assert forall k :: |p| <= k < |r| ==> r[k] == ellipsis[k - |p|];
      forall k | 0 <= k < |r| ensures !IsLineBreak(r[k]) {
        LineBreakIsSpace(r[k]);
      }
    }
  }

  /**
   * With the intended ellipsis the summary never exceeds `maxLength`, stays on
   * one line and has no whitespace at either end, so it can be kept as one
   * line of the history file.
   */
  lemma SummaryBound(text: string, maxLength: int)
    requires maxLength >= 1
    ensures var r := NormalizeTopicSummary(text, maxLength);
      |r| <= maxLength && NoneOf(r, IsLineBreak) && IsTrimmed(r)
  {
    assert IsWord(Ellipsis);
    SummaryLine(text, maxLength, Ellipsis);
  }

  /**
   * As written, a truncated summary whose kept part does not end in
   * whitespace is `maxLength + 2` characters long: the ellipsis literal is
   * three characters, not one.
   */
  lemma AsWrittenTooLong(text: string, maxLength: int)
    requires 1 <= maxLength < |CleanSummary(text)|
    requires maxLength == 1 || !IsSpace(CleanSummary(text)[maxLength - 2])
    ensures |NormalizeTopicSummaryAsWritten(text, maxLength)| == maxLength + 2
  {
    var clean := CleanSummary(text);
    var s := SliceTo(clean, maxLength - 1);
    assert s == clean[..maxLength - 1];
    if maxLength > 1 {
      assert s[|s| - 1] == clean[maxLength - 2];
    }
    assert TrimRight(s, IsSpace) == s;
  }

  /**
   * As written, every truncated summary is longer than `maxLength`: the cut
   * keeps `maxLength - 1` characters, `rstrip` drops at most the one space
   * before the cut, and the ellipsis literal adds three.
   */
  lemma AsWrittenOverlong(text: string, maxLength: int)
    requires 1 <= maxLength < |CleanSummary(text)|
    ensures maxLength < |NormalizeTopicSummaryAsWritten(text, maxLength)| <= maxLength + 2
  {
    var clean := CleanSummary(text);
    CleanSummaryShape(text);
    var s := SliceTo(clean, maxLength - 1);
    assert s == clean[..maxLength - 1];
    var p := TrimRight(s, IsSpace);
    if maxLength >= 2 {
      if IsSpace(s[|s| - 1]) {
        assert clean[maxLength - 2] == ' ';
        assert maxLength >= 3 && clean[maxLength - 3] != ' ';
        assert !IsSpace(s[|s| - 2]);
        assert TrimRight(s[..|s| - 1], IsSpace) == s[..|s| - 1];
      } else {
        assert p == s;
      }
    }
    assert |p| >= maxLength - 2;
  }

  /** A 161-character word is summarised in 162 characters by the default call as written. */
  lemma AsWrittenDefaultOverflow(word: string)
    requires |word| == DefaultMaxLength + 1 && IsWord(word) && EndsKept(word, IsTopicEdge)
    ensures |NormalizeTopicSummaryAsWritten(word, DefaultMaxLength)| == DefaultMaxLength + 2
    ensures |NormalizeTopicSummary(word, DefaultMaxLength)| == DefaultMaxLength
  {
    WordCollapse(word);
    TrimOfKept(word, IsTopicEdge);
    AsWrittenTooLong(word, DefaultMaxLength);
    assert TrimRight(word[..DefaultMaxLength - 1], IsSpace) == word[..DefaultMaxLength - 1];
  }

  /** A word has nothing to collapse. */
  lemma WordCollapse(w: string)
    requires IsWord(w)
    ensures CollapseSpace(w) == w
  {
    assert FindFirst(w, IsSpace) == |w| by {
      FindFirstAfter(w, [], IsSpace);
      assert w + [] == w;
    }
    assert w[..|w|] == w;
  }

  // ---------------------------------------------------------------------
  // summarize_generated_topic

  const UntitledTopic: string := "Untitled topic"
  const TitlePrefix: string := "title:"

  /** `[line.strip() for line in lines if line.strip()]`. */
  function NonBlankStripped(lines: seq<string>): (r: seq<string>)
    ensures |r| <= |lines|
    ensures forall k :: 0 <= k < |r| ==> r[k] != [] && IsTrimmed(r[k])
    decreases |lines|
  {
    if lines == [] then []
    else
      var rest := NonBlankStripped(lines[1..]);
      var line := Strip(lines[0]);
      if line != [] then [line] + rest else rest
  }

  /**
   * `summarize_generated_topic` with the given ellipsis: the normalised title
   * after `title:`, else the normalised first non-blank line.
   */
  function SummarizeWith(scriptText: string, ellipsis: string): string {
    var lines := NonBlankStripped(SplitLines(scriptText));
    if lines == [] then UntitledTopic
    else
      var firstLine := lines[0];
      var i := IndexOf(firstLine, ':');
      var title := if i < |firstLine| then Strip(firstLine[i + 1..]) else [];
      if StartsWith(Lower(firstLine), TitlePrefix) && title != [] then
        SummaryWith(title, DefaultMaxLength, ellipsis)
      else SummaryWith(firstLine, DefaultMaxLength, ellipsis)
  }

  /** `summarize_generated_topic` as written: it calls the normaliser with the mis-encoded ellipsis. */
  function SummarizeGeneratedTopicAsWritten(scriptText: string): string {
    SummarizeWith(scriptText, MisencodedEllipsis)
  }

  /** `summarize_generated_topic` with the intended one-character ellipsis. */
  function SummarizeGeneratedTopic(scriptText: string): string {
    SummarizeWith(scriptText, Ellipsis)
  }

  /** A line that lower-cases to a `title:` start has its first colon at index 5. */
  lemma TitleColon(line: string)
    requires StartsWith(Lower(line), TitlePrefix)
    ensures IndexOf(line, ':') == 5
  {
    assert Lower(line)[..6] == "title:";
    assert forall k :: 0 <= k < 5 ==> Lower(line)[k] != ':';
    IndexOfFirst(line[..5], ':', line[6..]);
    assert line[..5] + [':'] + line[6..] == line;
  }

  /** A blank script is untitled; otherwise its summary is that of the first non-blank line, or of its title. */
  lemma SummarizeCases(scriptText: string, ellipsis: string)
    ensures var lines := NonBlankStripped(SplitLines(scriptText));
      var r := SummarizeWith(scriptText, ellipsis);
      && (lines == [] ==> r == UntitledTopic)
      && (lines != [] && StartsWith(Lower(lines[0]), TitlePrefix) && Strip(lines[0][6..]) != [] ==>
            r == SummaryWith(Strip(lines[0][6..]), DefaultMaxLength, ellipsis))
      && (lines != [] && !(StartsWith(Lower(lines[0]), TitlePrefix) && Strip(lines[0][6..]) != []) ==>
            r == SummaryWith(lines[0], DefaultMaxLength, ellipsis))
  {
    var lines := NonBlankStripped(SplitLines(scriptText));
    if lines != [] && StartsWith(Lower(lines[0]), TitlePrefix) {
      TitleColon(lines[0]);
    }
  }

  /** With the intended ellipsis a topic summary fits the default limit and is one trimmed line. */
  lemma SummarizeBound(scriptText: string)
    ensures var r := SummarizeGeneratedTopic(scriptText);
      |r| <= DefaultMaxLength && NoneOf(r, IsLineBreak) && IsTrimmed(r)
  {
    SummarizeCases(scriptText, Ellipsis);
    var lines := NonBlankStripped(SplitLines(scriptText));
    if lines == [] {
      assert NoneOf(UntitledTopic, IsLineBreak) && IsTrimmed(UntitledTopic);
    } else if StartsWith(Lower(lines[0]), TitlePrefix) && Strip(lines[0][6..]) != [] {
      SummaryBound(Strip(lines[0][6..]), DefaultMaxLength);
    } else {
      SummaryBound(lines[0], DefaultMaxLength);
    }
  }

  /**
   * As written, a script whose only line is a 161-character word (not a
   * `title:` line) is summarised in 162 characters; with the intended
   * ellipsis in 160.
   */
  lemma SummarizerAsWrittenOverflow(word: string)
    requires |word| == DefaultMaxLength + 1 && IsWord(word) && EndsKept(word, IsTopicEdge)
    requires !StartsWith(Lower(word), TitlePrefix)
    ensures |SummarizeGeneratedTopicAsWritten(word + "\n")| == DefaultMaxLength + 2
    ensures |SummarizeGeneratedTopic(word + "\n")| == DefaultMaxLength
  {
    assert NoneOf(word, IsLineBreak) by {
      forall k | 0 <= k < |word| ensures !IsLineBreak(word[k]) {
        LineBreakIsSpace(word[k]);
      }
    }
    assert Terminated([word]) == word + "\n";
    SplitLinesOfTerminated([word]);
    assert IsTrimmed(word);
    NonBlankOfStripped([word]);
    SummarizeCases(word + "\n", MisencodedEllipsis);
    SummarizeCases(word + "\n", Ellipsis);
    AsWrittenDefaultOverflow(word);
  }

  // ---------------------------------------------------------------------
  // load_topic_history (after the file read)

  /** Python `topics[-n:]` for `n > 0`: the last `n` topics, or all when fewer. */
  function LastEntries(topics: seq<string>, n: nat): (r: seq<string>)
    ensures |r| == if n <= |topics| then n else |topics|
    ensures r == topics[|topics| - |r|..]
  {
    if n <= |topics| then topics[|topics| - n..] else topics
  }

  /**
   * The topics `load_topic_history` returns for the text of the history file:
   * its non-empty stripped lines, all of them when `maxEntries <= 0`, else the
   * last `maxEntries` in order.
   */
  function TopicHistory(text: string, maxEntries: int): (r: seq<string>)
    ensures forall k :: 0 <= k < |r| ==> r[k] != [] && IsTrimmed(r[k])
    ensures var topics := NonBlankStripped(SplitLines(text));
      && (maxEntries <= 0 ==> r == topics)
      && (maxEntries > 0 ==>
            |r| == (if maxEntries <= |topics| then maxEntries else |topics|) && r == topics[|topics| - |r|..])
  {
    var topics := NonBlankStripped(SplitLines(text));
    if maxEntries <= 0 then topics else LastEntries(topics, maxEntries)
  }

  lemma {:induction false} NonBlankOfStripped(lines: seq<string>)
    requires forall k :: 0 <= k < |lines| ==> lines[k] != [] && IsTrimmed(lines[k])
    ensures NonBlankStripped(lines) == lines
    decreases |lines|
  {
    if lines != [] {
      StripOfTrimmed(lines[0]);
      NonBlankOfStripped(lines[1..]);
    }
  }

  /**
   * The history `save_topic_history` writes (one topic per line, newline
   * terminated) reads back as the same topics, windowed to the last
   * `maxEntries`.
   */
  lemma HistoryOfSaved(topics: seq<string>, maxEntries: int)
    requires topics != []
    requires forall k :: 0 <= k < |topics| ==> topics[k] != [] && IsTrimmed(topics[k]) && NoneOf(topics[k], IsLineBreak)
    ensures TopicHistory(Join("\n", topics) + "\n", maxEntries)
      == if maxEntries <= 0 then topics else LastEntries(topics, maxEntries)
  {
    TerminatedIsJoin(topics);
    SplitLinesOfTerminated(topics);
    NonBlankOfStripped(topics);
  }

  /**
   * A non-empty summary written to the history is read back as the newest
   * topic, with the intended ellipsis or with any other that is one word,
   * the mis-encoded literal included.
   */
  lemma SummaryReadBack(history: seq<string>, text: string, maxLength: int, ellipsis: string)
    requires maxLength >= 1 && IsWord(ellipsis)
    requires forall k :: 0 <= k < |history| ==> history[k] != [] && IsTrimmed(history[k]) && NoneOf(history[k], IsLineBreak)
    requires SummaryWith(text, maxLength, ellipsis) != []
    ensures var saved := history + [SummaryWith(text, maxLength, ellipsis)];
      TopicHistory(Join("\n", saved) + "\n", 1) == [SummaryWith(text, maxLength, ellipsis)]
  {
    var summary := SummaryWith(text, maxLength, ellipsis);
    SummaryLine(text, maxLength, ellipsis);
    var saved := history + [summary];
    assert forall k :: 0 <= k < |saved| ==> saved[k] == (if k < |history| then history[k] else summary);
    HistoryOfSaved(saved, 1);
  }

  /** Both ellipses the normaliser may append are single words. */
  lemma EllipsesAreWords()
    ensures IsWord(Ellipsis) && IsWord(MisencodedEllipsis)
  {
  }
}
