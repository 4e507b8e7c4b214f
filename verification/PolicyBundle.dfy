/**
 Policy texts (rfq_common/pdp/bundle.py): cutting a file into policies line by line, and
 collecting the obligations of the policies that determined a decision.
 */
module PolicyBundles {
  import opened Base

  // ---------------------------------------------------------------- lines

  /** The characters `str.splitlines` breaks at, of which CR LF count as one break. */
  predicate IsBreak(c: char) {
    || '\U{0a}' <= c <= '\U{0d}' || '\U{1c}' <= c <= '\U{1e}'
    || c == '\U{85}' || c == '\U{2028}' || c == '\U{2029}'
  }

  /** The characters `str.strip` removes. */
  predicate IsSpace(c: char) {
    || IsBreak(c) || c == '\t' || c == '\U{1f}' || c == ' ' || c == '\U{a0}' || c == '\U{1680}'
    || '\U{2000}' <= c <= '\U{200a}' || c == '\U{202f}' || c == '\U{205f}' || c == '\U{3000}'
  }

  predicate HasNoBreak(line: string) {
    forall k :: 0 <= k < |line| ==> !IsBreak(line[k])
  }

  /** The length of the first line. */
  function LineLength(text: string): (n: nat)
    ensures n <= |text| && HasNoBreak(text[..n]) && (n < |text| ==> IsBreak(text[n]))
  {
    if text == "" || IsBreak(text[0]) then 0
    else
      var n := LineLength(text[1..]);
      assert text[..n + 1] == [text[0]] + text[1..][..n];
      n + 1
  }

  /** What ends the first line: nothing, a carriage return with its line feed, or a single break. */
  function LineEnd(text: string): (end: string)
    ensures LineLength(text) + |end| <= |text| && (text != "" ==> LineLength(text) + |end| > 0)
  {
    var n := LineLength(text);
    if n == |text| then "" else if "\r\n" <= text[n..] then "\r\n" else [text[n]]
  }

  function LinesOf(text: string): (lines: seq<string>)
    ensures forall k :: 0 <= k < |lines| ==> HasNoBreak(lines[k])
    decreases |text|
  {
    if text == "" then []
    else
      var n, end := LineLength(text), LineEnd(text);
      [text[..n]] + LinesOf(text[n + |end|..])
  }

  function Join(lines: seq<string>): string {
    if lines == [] then ""
    else if |lines| == 1 then lines[0]
    else Join(lines[..|lines| - 1]) + "\n" + Last(lines)
  }

  lemma LineEndsAtBreak(line: string, rest: string)
    requires HasNoBreak(line) && rest != "" && IsBreak(rest[0])
    ensures LineLength(line + rest) == |line|
  {
    assert (line + rest)[|line|] == rest[0];
  }

  lemma {:induction false} JoinFromLeft(lines: seq<string>)
    requires lines != []
    ensures Join(lines) == if |lines| == 1 then lines[0] else lines[0] + "\n" + Join(lines[1..])
  {
    var n := |lines| - 1;
    if n > 1 {
      JoinFromLeft(lines[..n]);
      assert lines[..n][1..] == lines[1..][..n - 1];
    }
  }

  lemma FewLinesReadBack(lines: seq<string>)
    requires |lines| <= 1 && forall k :: 0 <= k < |lines| ==> HasNoBreak(lines[k])
    ensures LinesOf(Join(lines)) == if lines == [] || lines[0] == "" then [] else lines
  {
    if |lines| == 1 && lines[0] != "" {
      var line := lines[0];
      assert LineLength(line) == |line|;
      assert line[..|line|] == line && line[|line|..] == "";
    }
  }

  lemma FirstLineIsCut(line: string, rest: string)
    requires HasNoBreak(line)
    ensures LinesOf(line + "\n" + rest) == [line] + LinesOf(rest)
  {
    var text := line + "\n" + rest;
    assert text == line + ("\n" + rest);
    LineEndsAtBreak(line, "\n" + rest);
    assert text[|line|..] == "\n" + rest;
    assert text[..|line|] == line && text[|line| + 1..] == rest;
  }

  /** Lines joined by line feeds read back, unless the last one is empty, which leaves no trace. */
  lemma {:induction false} LinesReadBack(lines: seq<string>)
    requires forall k :: 0 <= k < |lines| ==> HasNoBreak(lines[k])
    ensures LinesOf(Join(lines)) == lines <==> lines == [] || Last(lines) != ""
    ensures lines != [] && Last(lines) == "" ==> LinesOf(Join(lines)) == lines[..|lines| - 1]
  {
    hide IsBreak, HasNoBreak, LinesOf, Join;
    if |lines| <= 1 {
      FewLinesReadBack(lines);
    } else {
      var rest := lines[1..];
      LinesReadBack(rest);
      JoinFromLeft(lines);
      FirstLineIsCut(lines[0], Join(rest));
      assert lines == [lines[0]] + rest && Last(lines) == Last(rest);
      assert lines[..|lines| - 1] == [lines[0]] + rest[..|rest| - 1];
      assert ([lines[0]] + LinesOf(Join(rest)))[1..] == LinesOf(Join(rest));
    }
  }

  function StripLeft(s: string): string {
    if s != "" && IsSpace(s[0]) then StripLeft(s[1..]) else s
  }

  function StripRight(s: string): string {
    if s != "" && IsSpace(Last(s)) then StripRight(s[..|s| - 1]) else s
  }

  function Strip(s: string): string {
    StripRight(StripLeft(s))
  }

  /** Blank lines and line comments separate policies. */
  predicate IsPadding(line: string) {
    Strip(line) == "" || "//" <= Strip(line)
  }

  predicate EndsPolicy(line: string) {
    Strip(line) != "" && Last(Strip(line)) == ';'
  }

  /** A policy starts with text and runs to its first line ending in a semicolon. */
  predicate IsPolicy(block: seq<string>) {
    && block != [] && !IsPadding(block[0]) && EndsPolicy(Last(block))
    && forall k :: 0 <= k < |block| - 1 ==> !EndsPolicy(block[k])
  }

  predicate IsPaddingOnly(lines: seq<string>) {
    forall k :: 0 <= k < |lines| ==> IsPadding(lines[k])
  }

  /** The beginning of a policy that has not ended yet, or nothing. */
  predicate IsOpen(cur: seq<string>) {
    && (cur != [] ==> !IsPadding(cur[0]))
    && forall k :: 0 <= k < |cur| ==> !EndsPolicy(cur[k])
  }

  // ---------------------------------------------------------------- splitting

  datatype Cut = Cut(blocks: seq<seq<string>>, cur: seq<string>)

  /** One more line. */
  function Feed(c: Cut, line: string): Cut {
    if c.cur == [] && IsPadding(line) then c
    else if EndsPolicy(line) then Cut(c.blocks + [c.cur + [line]], [])
    else Cut(c.blocks, c.cur + [line])
  }

  function Split(lines: seq<string>): Cut {
    if lines == [] then Cut([], []) else Feed(Split(lines[..|lines| - 1]), Last(lines))
  }

  function Contents(blocks: seq<seq<string>>): (texts: seq<string>)
    ensures |texts| == |blocks| && forall k :: 0 <= k < |texts| ==> texts[k] == Join(blocks[k])
  {
    seq(|blocks|, k requires 0 <= k < |blocks| => Join(blocks[k]))
  }

  method SplitPolicies(text: string) returns (contents: seq<string>)
    ensures contents == Contents(Split(LinesOf(text)).blocks)
  {
    hide IsPadding, EndsPolicy, Join, LinesOf;
    var lines := LinesOf(text);
    contents := [];
    var cur: seq<string> := [];
    for k := 0 to |lines|
      invariant Split(lines[..k]).cur == cur && Contents(Split(lines[..k]).blocks) == contents
    {
      assert lines[..k + 1][..k] == lines[..k];
      if !(cur == [] && IsPadding(lines[k])) {
        cur := cur + [lines[k]];
        if EndsPolicy(lines[k]) {
          contents := contents + [Join(cur)];
          cur := [];
        }
      }
    }
    assert lines[..|lines|] == lines;
  }

  // ---------------------------------------------------------------- printing

  /** Policies with padding in front of each. */
  function Print(pads: seq<seq<string>>, blocks: seq<seq<string>>): seq<string>
    requires |pads| == |blocks|
  {
    if blocks == [] then []
    else Print(pads[..|pads| - 1], blocks[..|blocks| - 1]) + Last(pads) + Last(blocks)
  }

  lemma {:induction false} SplitOnwards(lines: seq<string>, more: seq<string>)
    ensures more == [] ==> Split(lines + more) == Split(lines)
    ensures more != [] ==> Split(lines + more) == Feed(Split(lines + more[..|more| - 1]), Last(more))
  {
    if more == [] {
      assert lines + more == lines;
    } else {
      assert (lines + more)[..|lines + more| - 1] == lines + more[..|more| - 1];
    }
  }

  lemma {:induction false} PaddingIsSkipped(lines: seq<string>, pad: seq<string>)
    requires Split(lines).cur == [] && IsPaddingOnly(pad)
    ensures Split(lines + pad) == Split(lines)
  {
    hide IsPadding, EndsPolicy;
    SplitOnwards(lines, pad);
    if pad != [] {
      PaddingIsSkipped(lines, pad[..|pad| - 1]);
    }
  }

  lemma LineStaysOpen(c: Cut, block: seq<string>, n: nat)
    requires IsPolicy(block) && 0 < n < |block| && c.cur == block[..n - 1]
    ensures Feed(c, block[n - 1]) == Cut(c.blocks, block[..n])
  {
    hide IsPadding, EndsPolicy;
    assert block[..n] == block[..n - 1] + [block[n - 1]];
  }

  lemma {:induction false} PolicyStaysOpen(lines: seq<string>, block: seq<string>, n: nat)
    requires Split(lines).cur == [] && IsPolicy(block) && n < |block|
    ensures Split(lines + block[..n]) == Cut(Split(lines).blocks, block[..n])
  {
    hide IsPadding, EndsPolicy, IsPolicy, Feed;
    SplitOnwards(lines, block[..n]);
    if n > 0 {
      PolicyStaysOpen(lines, block, n - 1);
      assert block[..n][..n - 1] == block[..n - 1];
      LineStaysOpen(Split(lines + block[..n - 1]), block, n);
    }
  }

  lemma PolicyIsCut(lines: seq<string>, block: seq<string>)
    requires Split(lines).cur == [] && IsPolicy(block)
    ensures Split(lines + block) == Cut(Split(lines).blocks + [block], [])
  {
    hide IsPadding, EndsPolicy;
    PolicyStaysOpen(lines, block, |block| - 1);
    SplitOnwards(lines, block);
    assert block == block[..|block| - 1] + [Last(block)];
  }

  /** Splitting undoes printing: whatever the padding, exactly the printed policies come back. */
  lemma {:induction false} SplitUndoesPrinting(pads: seq<seq<string>>, blocks: seq<seq<string>>, tail: seq<string>)
    requires |pads| == |blocks| && IsPaddingOnly(tail)
    requires forall k :: 0 <= k < |blocks| ==> IsPaddingOnly(pads[k]) && IsPolicy(blocks[k])
    ensures Split(Print(pads, blocks) + tail) == Cut(blocks, [])
  {
    hide IsPadding, EndsPolicy, IsPolicy, Feed;
    if blocks == [] {
      PaddingIsSkipped([], tail);
    } else {
      var n := |blocks| - 1;
      var before := Print(pads[..n], blocks[..n]);
      SplitUndoesPrinting(pads[..n], blocks[..n], []);
      assert before + [] == before;
      PaddingIsSkipped(before, pads[n]);
      PolicyIsCut(before + pads[n], blocks[n]);
      assert blocks == blocks[..n] + [blocks[n]];
      PaddingIsSkipped(Print(pads, blocks), tail);
    }
  }

  /**
   The same for whole texts: policies written line by line, with any blank or comment lines around
   them and a final line feed, are read back as they were written.
   */
  lemma WrittenPoliciesAreRead(pads: seq<seq<string>>, blocks: seq<seq<string>>, tail: seq<string>)
    requires |pads| == |blocks| && IsPaddingOnly(tail)
    requires forall k :: 0 <= k < |blocks| ==> IsPaddingOnly(pads[k]) && IsPolicy(blocks[k])
    requires forall k :: 0 <= k < |Print(pads, blocks) + tail| ==> HasNoBreak((Print(pads, blocks) + tail)[k])
    ensures Contents(Split(LinesOf(Join(Print(pads, blocks) + tail + [""]))).blocks) == Contents(blocks)
  {
    hide IsPadding, EndsPolicy, IsPolicy, Print, IsBreak, Split, Contents;
    var lines := Print(pads, blocks) + tail;
    LinesReadBack(lines + [""]);
    assert (lines + [""])[..|lines|] == lines;
    SplitUndoesPrinting(pads, blocks, tail);
  }

  lemma PrintNothing()
    ensures Print([], []) == []
  {
  }

  lemma PrintOneMore(pads: seq<seq<string>>, blocks: seq<seq<string>>, pad: seq<string>, block: seq<string>)
    requires |pads| == |blocks|
    ensures Print(pads + [pad], blocks + [block]) == Print(pads, blocks) + pad + block
  {
    assert (pads + [pad])[..|pads|] == pads && (blocks + [block])[..|blocks|] == blocks;
  }

  lemma NothingIsPadding()
    ensures IsPaddingOnly([]) && IsOpen([])
  {
  }

  lemma OneMoreLine(cur: seq<string>, tail: seq<string>, line: string)
    requires IsPaddingOnly(tail) && IsOpen(cur)
    ensures cur == [] && IsPadding(line) ==> IsPaddingOnly(tail + [line])
    ensures !(cur == [] && IsPadding(line)) && EndsPolicy(line) ==> IsPolicy(cur + [line])
    ensures !(cur == [] && IsPadding(line)) && !EndsPolicy(line) ==> IsOpen(cur + [line])
  {
    hide IsPadding, EndsPolicy;
  }

  /**
   Conversely every text is a print of the policies found in it, some padding, and an unterminated
   rest.  Only that rest and the padding are dropped.
   */
  lemma {:induction false} EveryTextIsAPrint(lines: seq<string>) returns (pads: seq<seq<string>>, tail: seq<string>)
    ensures var c := Split(lines);
            && |pads| == |c.blocks|
            && (forall k :: 0 <= k < |pads| ==> IsPaddingOnly(pads[k]) && IsPolicy(c.blocks[k]))
            && IsPaddingOnly(tail) && IsOpen(c.cur)
            && lines == Print(pads, c.blocks) + tail + c.cur
  {
    hide IsPadding, EndsPolicy, IsPolicy, IsPaddingOnly, IsOpen, Print;
    if lines == [] {
      pads, tail := [], [];
      NothingIsPadding();
      assert Print([], []) == [] by {
        PrintNothing();
      }
    } else {
      var before, line := lines[..|lines| - 1], Last(lines);
      var c := Split(before);
      pads, tail := EveryTextIsAPrint(before);
      assert lines == before + [line];
      OneMoreLine(c.cur, tail, line);
      if c.cur == [] && IsPadding(line) {
        assert lines == Print(pads, c.blocks) + (tail + [line]) + [];
        tail := tail + [line];
      } else if EndsPolicy(line) {
        PrintOneMore(pads, c.blocks, tail, c.cur + [line]);
        assert lines == Print(pads + [tail], c.blocks + [c.cur + [line]]) + [] + [];
        pads, tail := pads + [tail], [];
        NothingIsPadding();
      } else {
        assert lines == Print(pads, c.blocks) + tail + (c.cur + [line]);
      }
    }
  }

  // ---------------------------------------------------------------- obligations

  /** Each element once, where it occurs first. */
  function FirstOccurrences(xs: seq<string>): seq<string> {
    if xs == [] then []
    else
      var before := FirstOccurrences(xs[..|xs| - 1]);
      if Last(xs) in before then before else before + [Last(xs)]
  }

  /** `x` is in `xs` and not before position `k`. */
  predicate FirstAt(xs: seq<string>, x: string, k: nat) {
    k < |xs| && xs[k] == x && forall m :: 0 <= m < k ==> xs[m] != x
  }

  lemma {:induction false} FirstOccurrencesKeepElements(xs: seq<string>, x: string)
    ensures x in FirstOccurrences(xs) <==> x in xs
  {
    if xs != [] {
      FirstOccurrencesKeepElements(xs[..|xs| - 1], x);
      FirstOccurrencesKeepElements(xs[..|xs| - 1], Last(xs));
      assert xs == xs[..|xs| - 1] + [Last(xs)];
    }
  }

  lemma FirstIsEarly(xs: seq<string>, out: seq<string>, i: nat, k: nat)
    requires xs != [] && i < |out| && out[i] in xs[..|xs| - 1] && FirstAt(xs, out[i], k)
    ensures k < |xs| - 1 && FirstAt(xs[..|xs| - 1], out[i], k)
  {
    var before := xs[..|xs| - 1];
    var m :| 0 <= m < |before| && before[m] == out[i];
    assert xs[m] == out[i];
  }

  /** No element twice, and in the order in which they first occur. */
  lemma {:induction false} FirstOccurrencesKeepOrder(xs: seq<string>, i: nat, j: nat, k: nat, l: nat)
    requires i < j < |FirstOccurrences(xs)|
    requires FirstAt(xs, FirstOccurrences(xs)[i], k) && FirstAt(xs, FirstOccurrences(xs)[j], l)
    ensures FirstOccurrences(xs)[i] != FirstOccurrences(xs)[j] && k < l
  {
    var before := xs[..|xs| - 1];
    var out, n := FirstOccurrences(before), |xs| - 1;
    FirstOccurrencesKeepElements(before, FirstOccurrences(xs)[i]);
    FirstIsEarly(xs, out, i, k);
    if j < |out| {
      FirstOccurrencesKeepElements(before, out[j]);
      FirstIsEarly(xs, out, j, l);
      FirstOccurrencesKeepOrder(before, i, j, k, l);
    } else {
      assert FirstOccurrences(xs)[j] == Last(xs) && Last(xs) !in out;
      FirstOccurrencesKeepElements(before, Last(xs));
      assert forall m :: 0 <= m < n ==> before[m] == xs[m];
    }
  }

  type Obligations = map<string, seq<string>>

  /** All obligations of the listed policies, with repetitions; an unknown policy has none. */
  function AllObligations(table: Obligations, policies: seq<string>): seq<string> {
    if policies == [] then []
    else
      AllObligations(table, policies[..|policies| - 1])
      + (if Last(policies) in table then table[Last(policies)] else [])
  }

  lemma NothingListed(table: Obligations)
    ensures FirstOccurrences(AllObligations(table, [])) == []
  {
  }

  lemma OnePolicyMore(table: Obligations, policies: seq<string>, n: nat)
    requires n < |policies|
    ensures AllObligations(table, policies[..n + 1]) ==
            AllObligations(table, policies[..n]) + (if policies[n] in table then table[policies[n]] else [])
  {
    assert policies[..n + 1][..n] == policies[..n];
  }

  lemma OneMoreElement(xs: seq<string>, x: string)
    ensures FirstOccurrences(xs + [x]) ==
            if x in FirstOccurrences(xs) then FirstOccurrences(xs) else FirstOccurrences(xs) + [x]
  {
    assert (xs + [x])[..|xs|] == xs;
  }

  datatype Policy = Policy(id: string, content: string)

  class PolicyBundle {
    var policies: seq<Policy>
    var obligations: Obligations

    constructor ()
      ensures policies == [] && obligations == map[]
    {
      policies, obligations := [], map[];
    }

    /**
     Load a text; reading a policy's `@id` and `@obligations` annotations is given as functions.
     Fails at the first policy without an id.
     */
    method Load(text: string, idOf: string -> Option<string>, obligationsOf: string -> seq<string>)
      returns (ok: bool)
      modifies this
      ensures var texts := Contents(Split(LinesOf(text)).blocks);
              && (ok <==> forall k :: 0 <= k < |texts| ==> idOf(texts[k]).Some?)
              && (ok ==>
                    && |policies| == |texts|
                    && (forall k :: 0 <= k < |texts| ==> policies[k] == Policy(idOf(texts[k]).value, texts[k]))
                    && (forall k :: 0 <= k < |texts| ==> policies[k].id in obligations)
                    && (forall k ::
                          0 <= k < |texts| && (forall l :: k < l < |texts| ==> policies[l].id != policies[k].id) ==>
                                      obligations[policies[k].id] == obligationsOf(texts[k])))
    {
      hide Contents, Split, LinesOf;
      policies, obligations := [], map[];
      var texts := SplitPolicies(text);
      for n := 0 to |texts|
        invariant |policies| == n
        invariant forall k :: 0 <= k < n ==> idOf(texts[k]) == Some(policies[k].id) && policies[k].content == texts[k]
        invariant forall k :: 0 <= k < n ==> policies[k].id in obligations
        invariant forall k :: 0 <= k < n && (forall l :: k < l < n ==> policies[l].id != policies[k].id) ==>
                                obligations[policies[k].id] == obligationsOf(texts[k])
      {
        var id := idOf(texts[n]);
        if id.None? {
          return false;
        }
        policies := policies + [Policy(id.value, texts[n])];
        obligations := obligations[id.value := obligationsOf(texts[n])];
      }
      return true;
    }

    /** The duplicate-free union of the policies' obligations, in order of first occurrence. */
    method ResolveObligationIds(determining: seq<string>) returns (out: seq<string>)
      ensures out == FirstOccurrences(AllObligations(obligations, determining))
    {
      hide FirstOccurrences, AllObligations;
      NothingListed(obligations);
      out := [];
      assert determining[..0] == [];
      for n := 0 to |determining|
        invariant out == FirstOccurrences(AllObligations(obligations, determining[..n]))
      {
        var ids := if determining[n] in obligations then obligations[determining[n]] else [];
        ghost var all := AllObligations(obligations, determining[..n]);
        OnePolicyMore(obligations, determining, n);
        assert all + ids[..0] == all;
        for m := 0 to |ids|
          invariant out == FirstOccurrences(all + ids[..m])
        {
          assert all + ids[..m + 1] == (all + ids[..m]) + [ids[m]];
          OneMoreElement(all + ids[..m], ids[m]);
          if ids[m] !in out {
            out := out + [ids[m]];
          }
        }
        assert ids[..|ids|] == ids;
      }
      assert determining[..|determining|] == determining;
    }
  }
}
