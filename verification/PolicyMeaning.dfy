/**
 What is read from a policy text (rfq_common/pdp/bundle.py), character by character: which characters
 end a line, which ones are blank, which lines are skipped, and where a policy starts and ends.
 */
module PolicyMeaning {
  import opened Base
  import opened PolicyBundles

  // ---------------------------------------------------------------- lines

  /** The code points at which `str.splitlines` ends a line. */
  predicate EndsLine(c: char) {
    c in "\U{0a}\U{0b}\U{0c}\U{0d}\U{1c}\U{1d}\U{1e}\U{85}\U{2028}\U{2029}"
  }

  /** One such character, or a carriage return with its line feed. */
  predicate IsLineEnd(end: string) {
    end == "\r\n" || (|end| == 1 && EndsLine(end[0]))
  }

  /** The text starts with a line and what ends it; a carriage return and its line feed are not torn apart. */
  predicate StartsWith(text: string, line: string, end: string) {
    && line + end <= text && (forall k :: 0 <= k < |line| ==> !EndsLine(line[k]))
    && if end == "" then line != "" && line == text
       else IsLineEnd(end) && (end == "\r" && |line| + 1 < |text| ==> text[|line| + 1] != '\n')
  }

  /** The text is the lines with what ends them in between; the last one may lack its end, but then it has some text. */
  predicate AreLines(text: string, lines: seq<string>, ends: seq<string>)
    decreases |lines|
  {
    && |lines| == |ends|
    && if lines == [] then text == ""
       else StartsWith(text, lines[0], ends[0]) && AreLines(text[|lines[0]| + |ends[0]|..], lines[1..], ends[1..])
  }

  lemma BreakIff(c: char)
    ensures IsBreak(c) <==> EndsLine(c)
  {
  }

  lemma FirstLine(text: string)
    requires text != ""
    ensures StartsWith(text, text[..LineLength(text)], LineEnd(text))
  {
    hide IsBreak, EndsLine;
    var n := LineLength(text);
    forall k | 0 <= k < |text|
      ensures IsBreak(text[k]) <==> EndsLine(text[k])
    {
      BreakIff(text[k]);
    }
    assert n < |text| ==> text[n..][0] == text[n] && (n + 1 < |text| ==> text[n..][1] == text[n + 1]);
    assert text[..n] + LineEnd(text) == text[..n + |LineEnd(text)|];
  }

  lemma OneLineMore(text: string, line: string, end: string, lines: seq<string>, ends: seq<string>)
    requires StartsWith(text, line, end) && AreLines(text[|line| + |end|..], lines, ends)
    ensures AreLines(text, [line] + lines, [end] + ends)
  {
    hide StartsWith;
    assert ([line] + lines)[1..] == lines && ([end] + ends)[1..] == ends;
  }

  lemma {:induction false} LinesAre(text: string) returns (ends: seq<string>)
    ensures AreLines(text, LinesOf(text), ends)
    decreases |text|
  {
    hide StartsWith;
    if text == "" {
      ends := [];
    } else {
      hide AreLines;
      FirstLine(text);
      var n, end := LineLength(text), LineEnd(text);
      assert n + |end| > 0;
      var rest := LinesAre(text[n + |end|..]);
      OneLineMore(text, text[..n], end, LinesOf(text[n + |end|..]), rest);
      ends := [end] + rest;
    }
  }

  // ---------------------------------------------------------------- blank and comment lines

  /** The code points that Python calls white space. */
  predicate IsWhite(c: char) {
    || c in "\U{09}\U{0a}\U{0b}\U{0c}\U{0d}\U{1c}\U{1d}\U{1e}\U{1f}\U{20}\U{85}\U{a0}\U{1680}"
    || c in "\U{2000}\U{2001}\U{2002}\U{2003}\U{2004}\U{2005}\U{2006}\U{2007}\U{2008}\U{2009}\U{200a}"
    || c in "\U{2028}\U{2029}\U{202f}\U{205f}\U{3000}"
  }

  predicate AllWhite(s: string) {
    forall k :: 0 <= k < |s| ==> IsWhite(s[k])
  }

  predicate CommentsFrom(line: string, k: nat) {
    k + 1 < |line| && AllWhite(line[..k]) && line[k] == '/' && line[k + 1] == '/'
  }

  /** Nothing but white space, or that and then two slashes. */
  ghost predicate IsSkipped(line: string) {
    AllWhite(line) || exists k: nat :: CommentsFrom(line, k)
  }

  predicate TerminatesAt(line: string, k: nat) {
    k < |line| && line[k] == ';' && AllWhite(line[k + 1..])
  }

  /** A semicolon with nothing but white space behind it. */
  ghost predicate IsTerminated(line: string) {
    exists k: nat :: TerminatesAt(line, k)
  }

  lemma SpaceIff(c: char)
    ensures IsSpace(c) <==> IsWhite(c)
  {
  }

  /** What is stripped off on the left. */
  lemma {:induction false} StripLeftCuts(s: string) returns (n: nat)
    ensures n <= |s| && AllWhite(s[..n]) && StripLeft(s) == s[n..] && (n < |s| ==> !IsWhite(s[n]))
  {
    hide IsSpace, IsWhite;
    n := 0;
    if s != "" {
      SpaceIff(s[0]);
      if IsSpace(s[0]) {
        var m := StripLeftCuts(s[1..]);
        n := m + 1;
        assert s[..n] == [s[0]] + s[1..][..m];
      }
    }
  }

  /** What is stripped off on the right. */
  lemma {:induction false} StripRightCuts(s: string) returns (n: nat)
    ensures n <= |s| && AllWhite(s[n..]) && StripRight(s) == s[..n] && (n > 0 ==> !IsWhite(s[n - 1]))
  {
    hide IsSpace, IsWhite;
    n := |s|;
    if s != "" {
      SpaceIff(Last(s));
      if IsSpace(Last(s)) {
        n := StripRightCuts(s[..|s| - 1]);
        assert s[n..] == s[..|s| - 1][n..] + [Last(s)];
      }
    }
  }

  /** Stripping takes off white space on both ends, as much of it as there is. */
  lemma StripCuts(s: string) returns (m: nat, n: nat)
    ensures m <= n <= |s| && Strip(s) == s[m..n] && AllWhite(s[..m]) && AllWhite(s[n..])
    ensures m < n ==> !IsWhite(s[m]) && !IsWhite(s[n - 1])
    ensures m == n ==> AllWhite(s)
  {
    hide IsWhite, StripLeft, StripRight;
    m := StripLeftCuts(s);
    var k := StripRightCuts(StripLeft(s));
    n := m + k;
    assert s[m..][..k] == s[m..n] && s[m..][k..] == s[n..];
    assert s == s[..m] + s[m..];
  }

  lemma FrontIsWhite(s: string, m: nat, k: nat)
    requires m <= |s| && k < |s| && AllWhite(s[..m])
    ensures k < m ==> IsWhite(s[k])
  {
    hide IsWhite;
    assert s == s[..m] + s[m..];
  }

  lemma BackIsWhite(s: string, n: nat, k: nat)
    requires n <= |s| && k < |s| && AllWhite(s[n..])
    ensures n <= k ==> IsWhite(s[k])
  {
    hide IsWhite;
    assert s == s[..n] + s[n..];
  }

  lemma PaddingIff(line: string)
    ensures IsPadding(line) <==> IsSkipped(line)
  {
    hide Strip, IsWhite, AllWhite;
    var m, n := StripCuts(line);
    assert !IsWhite('/') by {
      SpaceIff('/');
    }
    if "//" <= Strip(line) {
      assert line[m] == Strip(line)[0] && line[m + 1] == Strip(line)[1];
      assert CommentsFrom(line, m);
    }
    if m < n {
      assert line[..|line|] == line;
      if AllWhite(line) {
        FrontIsWhite(line, |line|, m);
      }
    }
    if k: nat :| CommentsFrom(line, k) {
      FrontIsWhite(line, m, k);
      BackIsWhite(line, n, k + 1);
      FrontIsWhite(line, k, m);
      assert Strip(line)[0] == line[m] && Strip(line)[1] == line[m + 1];
    }
  }

  lemma TerminatedIff(line: string)
    ensures EndsPolicy(line) <==> IsTerminated(line)
  {
    hide Strip, IsWhite, AllWhite;
    var m, n := StripCuts(line);
    assert !IsWhite(';') by {
      SpaceIff(';');
    }
    if EndsPolicy(line) {
      assert TerminatesAt(line, n - 1);
    }
    if k: nat :| TerminatesAt(line, k) {
      FrontIsWhite(line, m, k);
      BackIsWhite(line, n, k);
      BackIsWhite(line, k + 1, n - 1);
      assert Last(Strip(line)) == line[n - 1];
    }
  }

  // ---------------------------------------------------------------- policies

  /** From a line that is not skipped to the first one that is terminated. */
  ghost predicate IsBlock(block: seq<string>) {
    && block != [] && !IsSkipped(block[0]) && IsTerminated(block[|block| - 1])
    && forall k :: 0 <= k < |block| - 1 ==> !IsTerminated(block[k])
  }

  /**
   The lines are blocks with skipped lines in front of each and behind the last, and then at most the
   beginning of another block that nothing terminates.
   */
  ghost predicate IsRead(lines: seq<string>, pads: seq<seq<string>>, blocks: seq<seq<string>>, tail: seq<string>,
                         open: seq<string>) {
    && |pads| == |blocks| && lines == Print(pads, blocks) + tail + open
    && (forall k :: 0 <= k < |blocks| ==>
          IsBlock(blocks[k]) && forall i :: 0 <= i < |pads[k]| ==> IsSkipped(pads[k][i]))
    && (forall i :: 0 <= i < |tail| ==> IsSkipped(tail[i]))
    && (open != [] ==> !IsSkipped(open[0])) && (forall i :: 0 <= i < |open| ==> !IsTerminated(open[i]))
  }

  lemma BlockIff(block: seq<string>)
    ensures IsPolicy(block) <==> IsBlock(block)
  {
    hide IsPadding, IsSkipped, EndsPolicy, IsTerminated;
    forall k | 0 <= k < |block|
      ensures IsPadding(block[k]) <==> IsSkipped(block[k])
      ensures EndsPolicy(block[k]) <==> IsTerminated(block[k])
    {
      PaddingIff(block[k]);
      TerminatedIff(block[k]);
    }
  }

  lemma SkippedThroughout(lines: seq<string>)
    requires IsPaddingOnly(lines)
    ensures forall i :: 0 <= i < |lines| ==> IsSkipped(lines[i])
  {
    hide IsPadding, IsSkipped;
    forall i | 0 <= i < |lines|
      ensures IsSkipped(lines[i])
    {
      PaddingIff(lines[i]);
    }
  }

  lemma OpenThroughout(lines: seq<string>)
    requires IsOpen(lines)
    ensures lines != [] ==> !IsSkipped(lines[0])
    ensures forall i :: 0 <= i < |lines| ==> !IsTerminated(lines[i])
  {
    hide IsPadding, IsSkipped, EndsPolicy, IsTerminated;
    forall i | 0 <= i < |lines|
      ensures !IsTerminated(lines[i])
    {
      TerminatedIff(lines[i]);
    }
    if lines != [] {
      PaddingIff(lines[0]);
    }
  }

  /**
   What is read from any text: its lines are the blocks found in it, skipped lines, and an unterminated rest;
   the policies are the lines of the blocks, joined by line feeds.
   */
  lemma TextMeans(text: string)
    returns (lines: seq<string>, ends: seq<string>, pads: seq<seq<string>>, blocks: seq<seq<string>>, tail: seq<string>,
             open: seq<string>)
    ensures AreLines(text, lines, ends) && IsRead(lines, pads, blocks, tail, open)
    ensures Contents(Split(LinesOf(text)).blocks) == Contents(blocks)
  {
    hide AreLines, IsBlock, IsPolicy, IsPaddingOnly, IsOpen, IsSkipped, IsTerminated, Print, Split, LinesOf;
    lines := LinesOf(text);
    ends := LinesAre(text);
    pads, tail := EveryTextIsAPrint(lines);
    blocks, open := Split(lines).blocks, Split(lines).cur;
    forall k | 0 <= k < |blocks|
      ensures IsBlock(blocks[k]) && forall i :: 0 <= i < |pads[k]| ==> IsSkipped(pads[k][i])
    {
      BlockIff(blocks[k]);
      SkippedThroughout(pads[k]);
    }
    SkippedThroughout(tail);
    OpenThroughout(open);
  }

  // ---------------------------------------------------------------- obligations

  /** Obligations are listed policy by policy, each with what the table has for it. */
  lemma {:induction false} ObligationsAddUp(table: Obligations, a: seq<string>, b: seq<string>, policy: string)
    ensures AllObligations(table, a + b) == AllObligations(table, a) + AllObligations(table, b)
    ensures policy in table ==> AllObligations(table, [policy]) == table[policy]
    ensures policy !in table ==> AllObligations(table, [policy]) == []
    decreases |b|
  {
    assert AllObligations(table, [policy][..0]) == [];
    if b == [] {
      assert a + b == a;
    } else {
      ObligationsAddUp(table, a, b[..|b| - 1], policy);
      assert (a + b)[..|a + b| - 1] == a + b[..|b| - 1];
    }
  }
}
