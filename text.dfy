/**
 * Python string operations the resolver relies on, over `string` (a sequence
 * of Unicode code points): `str.isspace`, `strip`, `split`, `splitlines`,
 * `join`, ASCII case mapping, decimal rendering and `shlex.quote`.
 */
module Text {
  import opened Wrappers
  import opened Seqs

  /** Python's `str.isspace()`: the characters `\s` matches in a `str` pattern. */
  predicate IsSpace(c: char) {
    c == ' ' || ('\t' <= c <= '\r') || ('\U{1c}' <= c <= '\U{1f}')
    || c == '\U{85}' || c == '\U{a0}' || c == '\U{1680}'
    || ('\U{2000}' <= c <= '\U{200a}') || c == '\U{2028}' || c == '\U{2029}'
    || c == '\U{202f}' || c == '\U{205f}' || c == '\U{3000}'
  }

  /** The line boundaries of Python's `str.splitlines()`. */
  predicate IsLineBreak(c: char) {
    c == '\n' || c == '\r' || c == '\U{0b}' || c == '\U{0c}'
    || c == '\U{1c}' || c == '\U{1d}' || c == '\U{1e}'
    || c == '\U{85}' || c == '\U{2028}' || c == '\U{2029}'
  }

  predicate IsDigit(c: char) { '0' <= c <= '9' }
  predicate IsUpperAscii(c: char) { 'A' <= c <= 'Z' }
  predicate IsLowerAscii(c: char) { 'a' <= c <= 'z' }
  predicate IsAlnumAscii(c: char) { IsDigit(c) || IsUpperAscii(c) || IsLowerAscii(c) }

  lemma LineBreakIsSpace(c: char)
    ensures IsLineBreak(c) ==> IsSpace(c)
  {
  }

  /** True iff no character of `s` satisfies `p`. */
  predicate NoneOf(s: string, p: char -> bool) {
    forall k :: 0 <= k < |s| ==> !p(s[k])
  }

  predicate StartsWith(s: string, prefix: string) {
    |prefix| <= |s| && s[..|prefix|] == prefix
  }

  /** Index of the first character satisfying `p`, or `|s|` when there is none. */
  function FindFirst(s: string, p: char -> bool): (i: nat)
    ensures i <= |s|
    ensures NoneOf(s[..i], p)
    ensures i < |s| ==> p(s[i])
  {
    if s == [] then 0
    else if p(s[0]) then 0
    else
      var j := FindFirst(s[1..], p);
      assert s[1..][..j] == s[1..j + 1];
      1 + j
  }

  /** Index of the first occurrence of `ch` in `s`, or `|s|` when there is none. */
  function IndexOf(s: string, ch: char): (i: nat)
    ensures i <= |s|
    ensures ch !in s[..i]
    ensures i < |s| ==> s[i] == ch
  {
    if s == [] then 0
    else if s[0] == ch then 0
    else
      var j := IndexOf(s[1..], ch);
      assert s[..j + 1] == [s[0]] + s[1..][..j];
      1 + j
  }

  /** Neither end of `s` is a character `drop` removes. */
  predicate EndsKept(s: string, drop: char -> bool) {
    s == [] || (!drop(s[0]) && !drop(s[|s| - 1]))
  }

  /** No whitespace at either end: what `strip()` returns. */
  predicate IsTrimmed(s: string) {
    s == [] || (!IsSpace(s[0]) && !IsSpace(s[|s| - 1]))
  }

  /** Python `s.lstrip(chars)`, the set of stripped characters given as `drop`. */
  function TrimLeft(s: string, drop: char -> bool): (r: string)
    ensures |r| <= |s| && r == s[|s| - |r|..]
    ensures r != [] ==> !drop(r[0])
  {
    if s != [] && drop(s[0]) then TrimLeft(s[1..], drop) else s
  }

  /** Python `s.rstrip(chars)`. */
  function TrimRight(s: string, drop: char -> bool): (r: string)
    ensures |r| <= |s| && r == s[..|r|]
    ensures r != [] ==> !drop(r[|r| - 1])
  {
    if s != [] && drop(s[|s| - 1]) then TrimRight(s[..|s| - 1], drop) else s
  }

  /** Python `s.strip(chars)`. */
  function Trim(s: string, drop: char -> bool): (r: string)
    ensures EndsKept(r, drop)
    ensures |r| <= |s|
  {
    if s != [] && drop(s[0]) then Trim(s[1..], drop)
    else if s != [] && drop(s[|s| - 1]) then Trim(s[..|s| - 1], drop)
    else s
  }

  /** Only a string made entirely of removed characters strips to nothing. */
  lemma {:induction false} TrimEmpty(s: string, drop: char -> bool)
    ensures Trim(s, drop) == [] <==> forall k :: 0 <= k < |s| ==> drop(s[k])
  {
    if s != [] && drop(s[0]) {
      TrimEmpty(s[1..], drop);
      assert forall k :: 1 <= k < |s| ==> s[k] == s[1..][k - 1];
    } else if s != [] && drop(s[|s| - 1]) {
      TrimEmpty(s[..|s| - 1], drop);
      assert forall k :: 0 <= k < |s| - 1 ==> s[k] == s[..|s| - 1][k];
    }
  }

  /** Stripping only removes characters: one absent before is absent after. */
  lemma {:induction false} TrimKeepsOut(s: string, drop: char -> bool, c: char)
    requires c !in s
    ensures c !in Trim(s, drop)
    decreases |s|
  {
    if s != [] && drop(s[0]) {
      assert forall k :: 0 <= k < |s| - 1 ==> s[1..][k] == s[k + 1];
      TrimKeepsOut(s[1..], drop, c);
    } else if s != [] && drop(s[|s| - 1]) {
      assert forall k :: 0 <= k < |s| - 1 ==> s[..|s| - 1][k] == s[k];
      TrimKeepsOut(s[..|s| - 1], drop, c);
    }
  }

  /** A string whose ends are kept is its own strip. */
  lemma TrimOfKept(s: string, drop: char -> bool)
    requires EndsKept(s, drop)
    ensures Trim(s, drop) == s
  {
  }

  /** Python `s.strip()` with no argument. */
  function Strip(s: string): (r: string)
    ensures IsTrimmed(r)
    ensures |r| <= |s|
  {
    Trim(s, IsSpace)
  }

  lemma StripEmpty(s: string)
    ensures Strip(s) == [] <==> forall k :: 0 <= k < |s| ==> IsSpace(s[k])
  {
    TrimEmpty(s, IsSpace);
  }

  lemma StripOfTrimmed(s: string)
    requires IsTrimmed(s)
    ensures Strip(s) == s
  {
    TrimOfKept(s, IsSpace);
  }

  lemma StripIdempotent(s: string)
    ensures Strip(Strip(s)) == Strip(s)
  {
    StripOfTrimmed(Strip(s));
  }

  function LowerChar(c: char): char {
    if IsUpperAscii(c) then (c as int + 32) as char else c
  }

  function UpperChar(c: char): char {
    if IsLowerAscii(c) then (c as int - 32) as char else c
  }

  /** `str.lower()` on ASCII letters; every other character is kept. */
  function Lower(s: string): (r: string)
    ensures |r| == |s|
    ensures forall k :: 0 <= k < |s| ==> r[k] == LowerChar(s[k])
  {
    seq(|s|, k requires 0 <= k < |s| => LowerChar(s[k]))
  }

  /** `str.upper()` on ASCII letters; every other character is kept. */
  function Upper(s: string): (r: string)
    ensures |r| == |s|
    ensures forall k :: 0 <= k < |s| ==> r[k] == UpperChar(s[k])
  {
    seq(|s|, k requires 0 <= k < |s| => UpperChar(s[k]))
  }

  lemma LowerIdempotent(s: string)
    ensures Lower(Lower(s)) == Lower(s)
  {
  }

  /** Lower-casing never creates or removes whitespace. */
  lemma LowerKeepsSpace(s: string)
    ensures forall k :: 0 <= k < |s| ==> (IsSpace(Lower(s)[k]) <==> IsSpace(s[k]))
  {
  }

  /** Lower-cased text holds no ASCII capital. */
  lemma LowerNoCapitals(s: string)
    ensures NoneOf(Lower(s), IsUpperAscii)
  {
  }

  /**
   * Python `str.isupper()` restricted to ASCII: at least one letter, and no
   * lower-case letter.
   */
  predicate IsUpperText(s: string) {
    (exists k :: 0 <= k < |s| && IsUpperAscii(s[k])) && NoneOf(s, IsLowerAscii)
  }

  /** `sep.join(parts)`. */
  function Join(sep: string, parts: seq<string>): string {
    if parts == [] then ""
    else if |parts| == 1 then parts[0]
    else parts[0] + sep + Join(sep, parts[1..])
  }

  lemma JoinCons(sep: string, p: string, parts: seq<string>)
    requires parts != []
    ensures Join(sep, [p] + parts) == p + sep + Join(sep, parts)
  {
    assert ([p] + parts)[1..] == parts;
  }

  /** Joining five parts, written out. */
  lemma JoinFive(sep: string, a: string, b: string, c: string, d: string, e: string)
    ensures Join(sep, [a, b, c, d, e]) == a + (sep + (b + (sep + (c + (sep + (d + (sep + e)))))))
  {
    JoinCons(sep, d, [e]);
    JoinCons(sep, c, [d, e]);
    JoinCons(sep, b, [c, d, e]);
    JoinCons(sep, a, [b, c, d, e]);
    assert [a] + [b, c, d, e] == [a, b, c, d, e];
    ConcatAssoc(a, sep, Join(sep, [b, c, d, e]));
    ConcatAssoc(b, sep, Join(sep, [c, d, e]));
    ConcatAssoc(c, sep, Join(sep, [d, e]));
    ConcatAssoc(d, sep, e);
  }

  /** Python `s.split(sep)` for a one-character separator. */
  function Split(s: string, sep: char): (parts: seq<string>)
    ensures |parts| >= 1
    ensures forall k :: 0 <= k < |parts| ==> sep !in parts[k]
    ensures Join([sep], parts) == s
    decreases |s|
  {
    var i := IndexOf(s, sep);
    if i == |s| then
      assert s[..i] == s;
      [s]
    else
      var rest := Split(s[i + 1..], sep);
      JoinCons([sep], s[..i], rest);
      assert s == s[..i] + [sep] + s[i + 1..];
      [s[..i]] + rest
  }

  /** Splitting undoes joining when no part holds the separator. */
  lemma {:induction false} SplitOfJoin(parts: seq<string>, sep: char)
    requires parts != []
    requires forall k :: 0 <= k < |parts| ==> sep !in parts[k]
    ensures Split(Join([sep], parts), sep) == parts
    decreases |parts|
  {
    var p := parts[0];
    if |parts| == 1 {
      assert IndexOf(p, sep) == |p|;
    } else {
      var rest := parts[1..];
      var s := Join([sep], parts);
      assert s == p + [sep] + Join([sep], rest);
      IndexOfFirst(p, sep, Join([sep], rest));
      assert s[..|p|] == p;
      assert s[|p| + 1..] == Join([sep], rest);
      SplitOfJoin(rest, sep);
    }
  }

  /** A maximal run of non-whitespace, as `s.split()` returns them. */
  predicate IsWord(w: string) { w != [] && NoneOf(w, IsSpace) }

  /** Python `s.split()` with no argument: the maximal runs of non-whitespace. */
  function SplitWs(s: string): (parts: seq<string>)
    ensures forall k :: 0 <= k < |parts| ==> IsWord(parts[k])
    decreases |s|
  {
    if s == [] then []
    else if IsSpace(s[0]) then SplitWs(s[1..])
    else
      var i := FindFirst(s, IsSpace);
      var w := s[..i];
      assert IsWord(w);
      [w] + SplitWs(s[i..])
  }

  lemma {:induction false} FindFirstAfter(a: string, rest: string, p: char -> bool)
    requires NoneOf(a, p)
    requires rest == [] || p(rest[0])
    ensures FindFirst(a + rest, p) == |a|
    decreases |a|
  {
    if a != [] {
      assert (a + rest)[1..] == a[1..] + rest;
      FindFirstAfter(a[1..], rest, p);
    } else {
      assert a + rest == rest;
    }
  }

  /** A word followed by whitespace or nothing is the first field `split()` returns. */
  lemma SplitWsWord(w: string, rest: string)
    requires IsWord(w)
    requires rest == [] || IsSpace(rest[0])
    ensures SplitWs(w + rest) == [w] + SplitWs(rest)
  {
    var s := w + rest;
    FindFirstAfter(w, rest, IsSpace);
    assert s[..|w|] == w && s[|w|..] == rest;
  }

  /** Leading whitespace is skipped by `split()`. */
  lemma SplitWsSpace(c: char, x: string)
    requires IsSpace(c)
    ensures SplitWs([c] + x) == SplitWs(x)
  {
    assert ([c] + x)[1..] == x;
  }

  /** Words on either side of a space stay apart: `(a + " " + b).split() == a.split() + b.split()`. */
  lemma {:induction false} SplitWsAroundSpace(a: string, b: string)
    ensures SplitWs(a + " " + b) == SplitWs(a) + SplitWs(b)
    decreases |a|
  {
    var s := a + " " + b;
    if a == [] {
      assert s == [' '] + b;
      SplitWsSpace(' ', b);
    } else if IsSpace(a[0]) {
      assert s == [a[0]] + (a[1..] + " " + b);
      SplitWsSpace(a[0], a[1..] + " " + b);
      SplitWsAroundSpace(a[1..], b);
    } else {
      var i := FindFirst(a, IsSpace);
      var w, t := a[..i], a[i..];
      assert IsWord(w);
      assert a == w + t;
      if i == |a| {
        assert t == [];
        SplitWsWord(w, t);
        assert s == w + (" " + b);
        SplitWsWord(w, " " + b);
        SplitWsSpace(' ', b);
        assert " " + b == [' '] + b;
      } else {
        SplitWsWord(w, t);
        assert s == w + (t + " " + b);
        SplitWsWord(w, t + " " + b);
        SplitWsAroundSpace(t, b);
        ConcatAssoc([w], SplitWs(t), SplitWs(b));
      }
    }
  }

  /** `split()` undoes joining words with single spaces. */
  lemma {:induction false} SplitWsOfJoin(words: seq<string>)
    requires forall k :: 0 <= k < |words| ==> IsWord(words[k])
    ensures SplitWs(Join(" ", words)) == words
    decreases |words|
  {
    if |words| == 1 {
      SplitWsWord(words[0], "");
      assert words[0] + "" == words[0];
    } else if words != [] {
      var w := words[0];
      var rest := Join(" ", words[1..]);
      assert Join(" ", words) == w + ([' '] + rest);
      SplitWsWord(w, [' '] + rest);
      SplitWsSpace(' ', rest);
      SplitWsOfJoin(words[1..]);
    }
  }

  /** Index just past the line boundary starting at `i` (`\r\n` is one boundary). */
  function NextLineStart(s: string, i: nat): (j: nat)
    requires i < |s|
    ensures i < j <= |s|
  {
    if s[i] == '\r' && i + 1 < |s| && s[i + 1] == '\n' then i + 2 else i + 1
  }

  /** Python `s.splitlines()`: no trailing empty line, `""` gives `[]`. */
  function SplitLines(s: string): (lines: seq<string>)
    ensures forall k :: 0 <= k < |lines| ==> NoneOf(lines[k], IsLineBreak)
    decreases |s|
  {
    if s == [] then []
    else
      var i := FindFirst(s, IsLineBreak);
      if i == |s| then [s]
      else [s[..i]] + SplitLines(s[NextLineStart(s, i)..])
  }

  /** Each line followed by `\n`: `"\n".join(lines) + "\n"` for a non-empty list. */
  function Terminated(lines: seq<string>): string {
    if lines == [] then "" else lines[0] + "\n" + Terminated(lines[1..])
  }

  lemma {:induction false} TerminatedIsJoin(lines: seq<string>)
    requires lines != []
    ensures Join("\n", lines) + "\n" == Terminated(lines)
    decreases |lines|
  {
    if |lines| > 1 {
      TerminatedIsJoin(lines[1..]);
      JoinCons("\n", lines[0], lines[1..]);
      assert lines == [lines[0]] + lines[1..];
    }
  }

  /** Splitting the lines back out of terminated text gives the same lines. */
  lemma {:induction false} SplitLinesOfTerminated(lines: seq<string>)
    requires forall k :: 0 <= k < |lines| ==> NoneOf(lines[k], IsLineBreak)
    ensures SplitLines(Terminated(lines)) == lines
    decreases |lines|
  {
    if lines != [] {
      var s := Terminated(lines);
      var l := lines[0];
      assert s == l + "\n" + Terminated(lines[1..]);
      assert s[|l|] == '\n';
      assert s[..|l|] == l;
      var i := FindFirst(s, IsLineBreak);
      assert i == |l|;
      assert NextLineStart(s, i) == |l| + 1;
      assert s[|l| + 1..] == Terminated(lines[1..]);
      SplitLinesOfTerminated(lines[1..]);
    }
  }

  /** No line of `lines` holds a line break. */
  predicate AllOneLine(lines: seq<string>) {
    forall k :: 0 <= k < |lines| ==> NoneOf(lines[k], IsLineBreak)
  }

  lemma AllOneLineConcat(a: seq<string>, b: seq<string>)
    requires AllOneLine(a) && AllOneLine(b)
    ensures AllOneLine(a + b)
  {
    forall k | 0 <= k < |a + b| ensures NoneOf((a + b)[k], IsLineBreak) {
      if k >= |a| {
        assert (a + b)[k] == b[k - |a|];
      } else {
        assert (a + b)[k] == a[k];
      }
    }
  }

  lemma AllOneLineTail(lines: seq<string>)
    requires lines != [] && AllOneLine(lines)
    ensures AllOneLine(lines[1..])
  {
    assert forall k :: 0 <= k < |lines| - 1 ==> lines[1..][k] == lines[k + 1];
  }

  /** A first line ended by `\n` is split off as it is. */
  lemma SplitLinesCons(l: string, rest: string)
    requires NoneOf(l, IsLineBreak)
    ensures SplitLines(l + "\n" + rest) == [l] + SplitLines(rest)
  {
    var s := l + "\n" + rest;
    assert s == l + ("\n" + rest);
    FindFirstAfter(l, "\n" + rest, IsLineBreak);
    assert s[..|l|] == l;
    assert NextLineStart(s, |l|) == |l| + 1;
    assert s[|l| + 1..] == rest;
  }

  /**
   * `"\n".join(lines).splitlines()` gives the lines back when none of them
   * holds a line break and the last one is not empty.
   */
  lemma {:induction false} SplitLinesOfJoin(lines: seq<string>)
    requires lines != [] && lines[|lines| - 1] != []
    requires AllOneLine(lines)
    ensures SplitLines(Join("\n", lines)) == lines
    decreases |lines|
  {
    var l := lines[0];
    if |lines| == 1 {
      assert l + [] == l;
      FindFirstAfter(l, [], IsLineBreak);
    } else {
      var rest := lines[1..];
      assert lines == [l] + rest;
      JoinCons("\n", l, rest);
      SplitLinesCons(l, Join("\n", rest));
      AllOneLineTail(lines);
      SplitLinesOfJoin(rest);
    }
  }

  lemma NoneOfConcat(a: string, b: string, p: char -> bool)
    ensures NoneOf(a + b, p) <==> NoneOf(a, p) && NoneOf(b, p)
  {
    if NoneOf(a, p) && NoneOf(b, p) {
      forall k | 0 <= k < |a + b| ensures !p((a + b)[k]) {
        if k >= |a| {
          assert (a + b)[k] == b[k - |a|];
        }
      }
    }
    if NoneOf(a + b, p) {
      assert forall k :: 0 <= k < |a| ==> (a + b)[k] == a[k];
      assert forall k :: 0 <= k < |b| ==> (a + b)[|a| + k] == b[k];
    }
  }

  /** Escaping quotes adds no line break. */
  lemma {:induction false} EscapeOneLine(s: string)
    requires NoneOf(s, IsLineBreak)
    ensures NoneOf(EscapeSingleQuotes(s), IsLineBreak)
    decreases |s|
  {
    if s != [] {
      var head := if s[0] == '\'' then "'\"'\"'" else [s[0]];
      EscapeOneLine(s[1..]);
      NoneOfConcat(head, EscapeSingleQuotes(s[1..]), IsLineBreak);
    }
  }

  /** Printable ASCII text is one line. */
  lemma PrintableOneLine(s: string)
    requires forall k :: 0 <= k < |s| ==> ' ' <= s[k] <= '~'
    ensures NoneOf(s, IsLineBreak)
  {
  }

  /** `shlex.quote` of a one-line string is one line. */
  lemma ShellQuoteOneLine(s: string)
    requires NoneOf(s, IsLineBreak)
    ensures NoneOf(ShellQuote(s), IsLineBreak)
  {
    if s != [] && !(forall k :: 0 <= k < |s| ==> IsSafeShellChar(s[k])) {
      EscapeOneLine(s);
      NoneOfConcat("'", EscapeSingleQuotes(s), IsLineBreak);
      NoneOfConcat("'" + EscapeSingleQuotes(s), "'", IsLineBreak);
    }
  }

  function DigitChar(d: nat): char
    requires d < 10
  {
    ('0' as int + d) as char
  }

  /** Decimal rendering of a natural number, as `str(n)`. */
  function NatToString(n: nat): (r: string)
    ensures r != [] && forall k :: 0 <= k < |r| ==> IsDigit(r[k])
  {
    if n < 10 then [DigitChar(n)] else NatToString(n / 10) + [DigitChar(n % 10)]
  }

  /** Decimal rendering of an integer, as `str(i)`. */
  function IntToString(i: int): string {
    if i < 0 then "-" + NatToString(-i) else NatToString(i)
  }

  /** Characters `shlex.quote` leaves unquoted: ASCII `\w` and `@%+=:,./-`. */
  predicate IsSafeShellChar(c: char) {
    IsAlnumAscii(c) || c == '_' || c == '@' || c == '%' || c == '+' || c == '='
    || c == ':' || c == ',' || c == '.' || c == '/' || c == '-'
  }

  /** `s.replace("'", "'\"'\"'")`. */
  function EscapeSingleQuotes(s: string): string {
    if s == [] then ""
    else (if s[0] == '\'' then "'\"'\"'" else [s[0]]) + EscapeSingleQuotes(s[1..])
  }

  /** Python `shlex.quote`: POSIX single-quoting unless every character is safe. */
  function ShellQuote(s: string): string {
    if s == [] then "''"
    else if forall k :: 0 <= k < |s| ==> IsSafeShellChar(s[k]) then s
    else "'" + EscapeSingleQuotes(s) + "'"
  }

  /**
   * The value a POSIX shell gives one word made of unquoted safe characters,
   * single-quoted segments, and double-quoted segments free of `\`, `$` and
   * backquote; `None` for anything else (a blank, a metacharacter, an
   * unterminated quote). It is the partner `ShellQuote` is proved against.
   */
  function ShellWordValue(w: string): Option<string>
    decreases |w|
  {
    if w == [] then Some("")
    else if w[0] == '\'' || w[0] == '"' then
      var q := w[0];
      var j := IndexOf(w[1..], q);
      if j == |w| - 1 then None
      else if q == '"' && exists k :: 1 <= k <= j && (w[k] == '\\' || w[k] == '$' || w[k] == '`') then None
      else
        match ShellWordValue(w[j + 2..])
        case None => None
        case Some(rest) => Some(w[1..j + 1] + rest)
    else if IsSafeShellChar(w[0]) then
      match ShellWordValue(w[1..])
      case None => None
      case Some(rest) => Some([w[0]] + rest)
    else None
  }

  lemma {:induction false} SafeWordValue(s: string)
    requires forall k :: 0 <= k < |s| ==> IsSafeShellChar(s[k])
    ensures ShellWordValue(s) == Some(s)
    decreases |s|
  {
    if s != [] {
      SafeWordValue(s[1..]);
      assert [s[0]] + s[1..] == s;
    }
  }

  lemma {:induction false} EscapeConcat(a: string, b: string)
    ensures EscapeSingleQuotes(a + b) == EscapeSingleQuotes(a) + EscapeSingleQuotes(b)
    decreases |a|
  {
    if a == [] {
      assert a + b == b;
    } else {
      var head := if a[0] == '\'' then "'\"'\"'" else [a[0]];
      var ab := a + b;
      assert ab != [] && ab[0] == a[0] && ab[1..] == a[1..] + b;
      assert EscapeSingleQuotes(ab) == head + EscapeSingleQuotes(a[1..] + b);
      EscapeConcat(a[1..], b);
      assert EscapeSingleQuotes(a) == head + EscapeSingleQuotes(a[1..]);
      ConcatAssoc(head, EscapeSingleQuotes(a[1..]), EscapeSingleQuotes(b));
    }
  }

  lemma {:induction false} EscapeWithoutQuotes(a: string)
    requires '\'' !in a
    ensures EscapeSingleQuotes(a) == a
    decreases |a|
  {
    if a != [] {
      EscapeWithoutQuotes(a[1..]);
      assert [a[0]] + a[1..] == a;
    }
  }

  /** `prefix` put in front of a word value, failure kept. */
  function Prefixed(prefix: string, o: Option<string>): Option<string> {
    match o
    case None => None
    case Some(rest) => Some(prefix + rest)
  }

  lemma {:induction false} IndexOfFirst(a: string, ch: char, rest: string)
    requires ch !in a
    ensures IndexOf(a + [ch] + rest, ch) == |a|
    decreases |a|
  {
    if a != [] {
      assert (a + [ch] + rest)[1..] == a[1..] + [ch] + rest;
      IndexOfFirst(a[1..], ch, rest);
    }
  }

  /** A single-quoted segment contributes its contents literally. */
  lemma {:induction false} SingleQuotedSegment(a: string, rest: string)
    requires '\'' !in a
    ensures ShellWordValue("'" + a + "'" + rest) == Prefixed(a, ShellWordValue(rest))
  {
    var w := "'" + a + "'" + rest;
    assert w[1..] == a + ['\''] + rest;
    IndexOfFirst(a, '\'', rest);
    assert w[|a| + 2..] == rest;
    assert w[1..|a| + 1] == a;
  }

  /** The double-quoted quote `"'"` contributes one `'`. */
  lemma {:induction false} DoubleQuotedQuote(rest: string)
    ensures ShellWordValue("\"'\"" + rest) == Prefixed("'", ShellWordValue(rest))
  {
    var w := "\"'\"" + rest;
    assert w[1..] == "'" + ['"'] + rest;
    IndexOfFirst("'", '"', rest);
    assert w[3..] == rest;
    assert w[1..2] == "'";
    assert !(exists k :: 1 <= k <= 1 && (w[k] == '\\' || w[k] == '$' || w[k] == '`'));
  }

  /** Escaping around the first quote of `s`. */
  lemma {:induction false} EscapeAtFirstQuote(s: string, i: nat)
    requires i < |s| && s[i] == '\'' && '\'' !in s[..i]
    ensures EscapeSingleQuotes(s) == s[..i] + "'\"'\"'" + EscapeSingleQuotes(s[i + 1..])
  {
    var a, b := s[..i], s[i + 1..];
    assert s == a + ("'" + b);
    EscapeWithoutQuotes(a);
    EscapeConcat(a, "'" + b);
    EscapeConcat("'", b);
    assert EscapeSingleQuotes("'") == "'\"'\"'" by {
      assert "'"[0] == '\'' && "'"[1..] == "";
      assert EscapeSingleQuotes("") == "";
    }
  }

  lemma {:induction false} QuotedAroundFirstQuote(s: string, i: nat)
    requires i == IndexOf(s, '\'') < |s|
    ensures "'" + EscapeSingleQuotes(s) + "'"
         == "'" + s[..i] + "'" + ("\"'\"" + ("'" + EscapeSingleQuotes(s[i + 1..]) + "'"))
  {
    EscapeAtFirstQuote(s, i);
  }

  /** The word for `a + "'" + b`: `a` single-quoted, the quote double-quoted, then `b`'s word. */
  lemma {:induction false} QuotedSegments(a: string, b: string)
    requires '\'' !in a
    requires ShellWordValue("'" + EscapeSingleQuotes(b) + "'") == Some(b)
    ensures ShellWordValue("'" + a + "'" + ("\"'\"" + ("'" + EscapeSingleQuotes(b) + "'")))
         == Some(a + ("'" + b))
  {
    var tail := "'" + EscapeSingleQuotes(b) + "'";
    DoubleQuotedQuote(tail);
    SingleQuotedSegment(a, "\"'\"" + tail);
  }

  /** A string without quotes is read back from one single-quoted segment. */
  lemma QuotedNoQuote(s: string)
    requires '\'' !in s
    ensures ShellWordValue("'" + EscapeSingleQuotes(s) + "'") == Some(s)
  {
    EscapeWithoutQuotes(s);
    var e: string := "";
    SingleQuotedSegment(s, e);
    assert "'" + s + "'" + e == "'" + s + "'";
    assert ShellWordValue(e) == Some(e);
    assert s + e == s;
  }

  /** What the quoted branch of `ShellQuote` produces reads back as `s`. */
  lemma {:induction false} QuotedWordValue(s: string)
    ensures ShellWordValue("'" + EscapeSingleQuotes(s) + "'") == Some(s)
    decreases |s|
  {
    var i := IndexOf(s, '\'');
    if i == |s| {
      assert s[..i] == s;
      QuotedNoQuote(s);
    } else {
      QuotedWordValue(s[i + 1..]);
      QuotedAtQuote(s, i);
    }
  }

  /** Reading back the quoted form of `s`, given the reading of the part after its first quote. */
  lemma QuotedAtQuote(s: string, i: nat)
    requires i == IndexOf(s, '\'') < |s|
    requires ShellWordValue("'" + EscapeSingleQuotes(s[i + 1..]) + "'") == Some(s[i + 1..])
    ensures ShellWordValue("'" + EscapeSingleQuotes(s) + "'") == Some(s)
  {
    var a, b := s[..i], s[i + 1..];
    var x := "'" + EscapeSingleQuotes(s) + "'";
    var y := "'" + a + "'" + ("\"'\"" + ("'" + EscapeSingleQuotes(b) + "'"));
    QuotedAroundFirstQuote(s, i);
    assert x == y;
    QuotedSegments(a, b);
    assert ShellWordValue(y) == Some(a + ("'" + b));
    SplitAround(s, i);
  }

  lemma SplitAround(s: string, i: nat)
    requires i < |s|
    ensures s[..i] + ([s[i]] + s[i + 1..]) == s
  {
  }

  /** `shlex.quote(s)` is one shell word whose value is `s`. */
  lemma ShellQuoteRoundTrip(s: string)
    ensures ShellWordValue(ShellQuote(s)) == Some(s)
  {
    if s == [] {
      var e: string := "";
      SingleQuotedSegment(e, e);
      assert ShellQuote(s) == "'" + e + "'" + e;
      assert ShellWordValue(e) == Some(e);
      assert e + e == e;
    } else if forall k :: 0 <= k < |s| ==> IsSafeShellChar(s[k]) {
      SafeWordValue(s);
    } else {
      QuotedWordValue(s);
    }
  }
}
