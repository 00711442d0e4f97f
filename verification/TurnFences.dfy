/** Which lines of a chat export are delimiters, told by the text alone (_ingest/scripts/build_turn_index.py). */
module TurnFences {
  import opened Common
  import opened Turns

  // ---- lines ---------------------------------------------------------------------------------------

  /** From the start of the text, or from behind a line break, to the next break or the end. */
  predicate IsLine(text: string, line: Span) {
    && line.start <= line.end <= |text| && line.start < |text|
    && (line.start == 0 || text[line.start - 1] == '\n')
    && NoBreak(text, line.start, line.end) && (line.end == |text| || text[line.end] == '\n')
  }

  lemma {:induction false} LineEndStops(text: string, i: nat)
    requires i <= |text|
    ensures var e := LineEnd(text, i); NoBreak(text, i, e) && (e == |text| || text[e] == '\n')
    decreases |text| - i
  {
    if i < |text| && text[i] != '\n' {
      LineEndStops(text, i + 1);
    }
  }

  /** The lines that start at or after a place where a line may start. */
  lemma {:induction false} LinesExactly(text: string, i: nat, line: Span)
    requires i == 0 || i > |text| || text[i - 1] == '\n'
    ensures line in LinesFrom(text, i) <==> IsLine(text, line) && i <= line.start
    decreases |text| - i
  {
    if i < |text| {
      var e := LineEnd(text, i);
      LineEndStops(text, i);
      LinesExactly(text, e + 1, line);
      if IsLine(text, line) && i <= line.start {
        NextLine(text, i, e, line);
      }
    }
  }

  lemma NextLine(text: string, i: nat, e: nat, line: Span)
    requires i <= e <= |text| && NoBreak(text, i, e) && (e == |text| || text[e] == '\n')
    requires IsLine(text, line) && i <= line.start
    ensures line == Span(i, e) || e < line.start
  {
    if line.start == i {
      LineEndIs(text, i, e);
      LineEndIs(text, i, line.end);
    }
  }

  // ---- one line --------------------------------------------------------------------------------------

  predicate FenceLine(line: string) {
    "```" <= line || "~~~" <= line
  }

  predicate AllSpace(s: string) {
    forall i :: 0 <= i < |s| ==> IsPySpace(s[i])
  }

  /** Nothing but `---` and space around it. */
  ghost predicate Ruled(line: string) {
    exists a, b :: AllSpace(a) && AllSpace(b) && line == a + "---" + b
  }

  lemma {:induction false} Leading(s: string) returns (a: string)
    ensures AllSpace(a) && s == a + StripLeft(s)
  {
    a := "";
    if s != "" && IsPySpace(s[0]) {
      var rest := Leading(s[1..]);
      a := [s[0]] + rest;
      assert s == [s[0]] + s[1..];
    }
  }

  lemma {:induction false} Trailing(s: string) returns (b: string)
    ensures AllSpace(b) && s == StripRight(s) + b
  {
    b := "";
    if s != "" && IsPySpace(s[|s| - 1]) {
      var front := Trailing(s[..|s| - 1]);
      b := front + [s[|s| - 1]];
      assert s == s[..|s| - 1] + [s[|s| - 1]];
    }
  }

  predicate AllCR(s: string) {
    forall i :: 0 <= i < |s| ==> s[i] == '\r'
  }

  lemma {:induction false} TrailingCRs(s: string) returns (c: string)
    ensures AllCR(c) && s == StripCRs(s) + c
  {
    c := "";
    if s != "" && s[|s| - 1] == '\r' {
      var front := TrailingCRs(s[..|s| - 1]);
      c := front + ['\r'];
      assert s == s[..|s| - 1] + ['\r'];
    }
  }

  /** What stands at both ends of a core that is free of space is stripped. */
  lemma {:induction false} StripLeftOff(a: string, core: string)
    requires AllSpace(a) && core != "" && !IsPySpace(core[0])
    ensures StripLeft(a + core) == core
  {
    if a == "" {
      assert a + core == core;
    } else {
      assert (a + core)[1..] == a[1..] + core;
      StripLeftOff(a[1..], core);
    }
  }

  lemma {:induction false} StripRightOff(core: string, b: string)
    requires AllSpace(b) && core != "" && !IsPySpace(core[|core| - 1])
    ensures StripRight(core + b) == core
  {
    if b == "" {
      assert core + b == core;
    } else {
      var n := |b| - 1;
      assert (core + b)[..|core| + n] == core + b[..n];
      StripRightOff(core, b[..n]);
    }
  }

  lemma {:induction false} StripCRsOff(core: string, b: string) returns (rest: string)
    requires AllSpace(b) && core != "" && core[|core| - 1] != '\r'
    ensures AllSpace(rest) && StripCRs(core + b) == core + rest
  {
    if b != "" && b[|b| - 1] == '\r' {
      var n := |b| - 1;
      assert (core + b)[..|core| + n] == core + b[..n];
      rest := StripCRsOff(core, b[..n]);
    } else {
      rest := b;
      assert b == "" ==> core + b == core;
    }
  }

  lemma RuledStrips(line: string)
    requires Ruled(line)
    ensures StripRight(StripLeft(StripCRs(line))) == "---" && !FenceLine(line)
  {
    var a, b :| AllSpace(a) && AllSpace(b) && line == a + "---" + b;
    var rest := StripCRsOff(a + "---", b);
    StripBoth(a, rest);
    NotFence(a, b);
  }

  lemma StripBoth(a: string, rest: string)
    requires AllSpace(a) && AllSpace(rest)
    ensures StripRight(StripLeft(a + "---" + rest)) == "---"
  {
    assert a + "---" + rest == a + ("---" + rest);
    StripLeftOff(a, "---" + rest);
    StripRightOff("---", rest);
  }

  lemma NotFence(a: string, b: string)
    requires AllSpace(a)
    ensures !FenceLine(a + "---" + b)
  {
    assert (a + "---" + b)[0] == if a == "" then '-' else a[0];
  }

  lemma StripsRuled(line: string)
    requires StripRight(StripLeft(StripCRs(line))) == "---"
    ensures Ruled(line)
  {
    var c := TrailingCRs(line);
    var a := Leading(StripCRs(line));
    var b := Trailing(StripLeft(StripCRs(line)));
    CRsAreSpace(c);
    SpacesJoin(b, c);
    Regrouped(a, "---", b, c);
  }

  lemma CRsAreSpace(c: string)
    requires AllCR(c)
    ensures AllSpace(c)
  {
  }

  lemma SpacesJoin(a: string, b: string)
    requires AllSpace(a) && AllSpace(b)
    ensures AllSpace(a + b)
  {
  }

  lemma Regrouped(a: string, core: string, b: string, c: string)
    ensures (a + (core + b)) + c == a + core + (b + c)
  {
  }

  lemma MarkerKept(marker: string, line: string)
    requires marker == "```" || marker == "~~~"
    ensures marker <= StripCRs(line) <==> marker <= line
    ensures marker <= line ==> StripCRs(line)[..3] == line[..3]
  {
    var c := TrailingCRs(line);
    MarkerInFront(marker, StripCRs(line), c);
  }

  lemma MarkerInFront(marker: string, s: string, c: string)
    requires (marker == "```" || marker == "~~~") && AllCR(c)
    ensures marker <= s <==> marker <= s + c
    ensures marker <= s ==> (s + c)[..3] == s[..3]
  {
    assert c != "" ==> (s + c)[|s|] == '\r';
    assert '\r' !in marker;
  }

  predicate IsMarker(fence: Fence) {
    fence.Some? ==> fence.value == "```" || fence.value == "~~~"
  }

  /** What one line does, without the carriage returns at its end. */
  lemma LineDoes(fence: Fence, line: string)
    requires IsMarker(fence)
    ensures NextFence(fence, line)
         == if !FenceLine(line) then fence
            else if fence.None? then Some(line[..3])
            else if fence.value <= line then None else fence
    ensures IsDelimiter(fence, line) <==> fence.None? && Ruled(line)
  {
    MarkerKept("```", line);
    MarkerKept("~~~", line);
    if Ruled(line) {
      RuledStrips(line);
    }
    if IsDelimiter(fence, line) {
      StripsRuled(line);
    }
  }

  // ---- fenced blocks -----------------------------------------------------------------------------------

  /** Line j starts with the three characters that line o starts with. */
  predicate SameMarker(ls: seq<string>, o: nat, j: nat) {
    o < |ls| && j < |ls| && |ls[o]| >= 3 && ls[o][..3] <= ls[j]
  }

  /** The block that line o opens has its last line before line k. */
  ghost predicate ClosedBefore(ls: seq<string>, o: nat, k: nat) {
    exists j: nat :: o < j < k && SameMarker(ls, o, j)
  }

  /** Line i opens a block: it is a fence line and every block opened before has its last line before it. */
  ghost predicate Opening(ls: seq<string>, i: nat)
    decreases i
  {
    i < |ls| && FenceLine(ls[i]) && forall o: nat :: o < i && Opening(ls, o) ==> ClosedBefore(ls, o, i)
  }

  /** A block runs from the line that opens it through the next line with its marker, or to the end. */
  ghost predicate InBlock(ls: seq<string>, k: nat) {
    exists o: nat :: o <= k && Opening(ls, o) && !ClosedBefore(ls, o, k)
  }

  ghost predicate AllClosed(ls: seq<string>, k: nat) {
    forall o: nat :: o < k && Opening(ls, o) ==> ClosedBefore(ls, o, k)
  }

  /** The open fence before line k. */
  ghost function FenceAt(ls: seq<string>, k: nat): Fence
    requires k <= |ls|
  {
    if k == 0 then None else NextFence(FenceAt(ls, k - 1), ls[k - 1])
  }

  lemma ClosedLonger(ls: seq<string>, o: nat, k: nat, m: nat)
    requires ClosedBefore(ls, o, k) && k <= m
    ensures ClosedBefore(ls, o, m)
  {
    var j: nat :| o < j < k && SameMarker(ls, o, j);
    assert o < j < m;
  }

  /** The block that line o opened is the one open before line k. */
  ghost predicate OpenBlock(ls: seq<string>, k: nat, o: nat) {
    o < k && Opening(ls, o) && !ClosedBefore(ls, o, k)
  }

  /** Of two opening lines the earlier one's block is closed before the later one. */
  lemma OneOpenBlock(ls: seq<string>, k: nat, o: nat, p: nat)
    requires OpenBlock(ls, k, o) && p < k && Opening(ls, p) && p != o
    ensures p < o && ClosedBefore(ls, p, k)
  {
    if p < o {
      ClosedLonger(ls, p, o, k);
    } else {
      assert ClosedBefore(ls, o, p);
      ClosedLonger(ls, o, p, k);
    }
  }

  /** The automaton tracks the open block. */
  lemma {:induction false} FenceTracks(ls: seq<string>, k: nat) returns (o: nat)
    requires k <= |ls|
    ensures IsMarker(FenceAt(ls, k))
    ensures FenceAt(ls, k).None? ==> AllClosed(ls, k)
    ensures FenceAt(ls, k).Some? ==> OpenBlock(ls, k, o) && |ls[o]| >= 3 && FenceAt(ls, k).value == ls[o][..3]
  {
    if k == 0 {
      o := 0;
    } else {
      o := FenceTracks(ls, k - 1);
      LineDoes(FenceAt(ls, k - 1), ls[k - 1]);
      if FenceAt(ls, k - 1).None? {
        AfterClosed(ls, k - 1);
        o := k - 1;
      } else {
        AfterOpen(ls, k - 1, o);
      }
    }
  }

  lemma AfterClosed(ls: seq<string>, k: nat)
    requires k < |ls| && AllClosed(ls, k)
    ensures if FenceLine(ls[k]) then OpenBlock(ls, k + 1, k) else AllClosed(ls, k + 1)
  {
    if !FenceLine(ls[k]) {
      forall p: nat | p < k + 1 && Opening(ls, p) ensures ClosedBefore(ls, p, k + 1) {
        ClosedLonger(ls, p, k, k + 1);
      }
    }
  }

  lemma AfterOpen(ls: seq<string>, k: nat, o: nat)
    requires k < |ls| && OpenBlock(ls, k, o) && |ls[o]| >= 3
    ensures if ls[o][..3] <= ls[k] then AllClosed(ls, k + 1) else OpenBlock(ls, k + 1, o)
  {
    if ls[o][..3] <= ls[k] {
      assert SameMarker(ls, o, k) && ClosedBefore(ls, o, k + 1);
      forall p: nat | p < k + 1 && Opening(ls, p) ensures ClosedBefore(ls, p, k + 1) {
        if p < k && p != o {
          OneOpenBlock(ls, k, o, p);
          ClosedLonger(ls, p, k, k + 1);
        }
      }
    }
  }

  /** No fence is open before a line that opens none exactly if the line is in no block. */
  lemma FenceIsBlock(ls: seq<string>, k: nat)
    requires k < |ls| && !FenceLine(ls[k])
    ensures FenceAt(ls, k).None? <==> !InBlock(ls, k)
  {
    var o := FenceTracks(ls, k);
    assert FenceAt(ls, k).Some? ==> o <= k && Opening(ls, o) && !ClosedBefore(ls, o, k);
  }

  /** Line k holds nothing but `---` and space, and stands in no fenced block. */
  ghost predicate Divides(ls: seq<string>, k: nat) {
    k < |ls| && Ruled(ls[k]) && !InBlock(ls, k)
  }

  lemma DividesExactly(ls: seq<string>, k: nat)
    requires k < |ls|
    ensures IsDelimiter(FenceAt(ls, k), ls[k]) <==> Divides(ls, k)
  {
    var _ := FenceTracks(ls, k);
    LineDoes(FenceAt(ls, k), ls[k]);
    if Ruled(ls[k]) {
      RuledStrips(ls[k]);
      FenceIsBlock(ls, k);
    }
  }

  // ---- the delimiters ------------------------------------------------------------------------------------

  function Texts(text: string, lines: seq<Span>): (ls: seq<string>)
    ensures |ls| == |lines|
  {
    seq(|lines|, i requires 0 <= i < |lines| => Slice(text, lines[i]))
  }

  ghost predicate DividesFrom(text: string, lines: seq<Span>, k: nat, span: Span) {
    exists i: nat :: k <= i < |lines| && lines[i] == span && Divides(Texts(text, lines), i)
  }

  ghost predicate FoundFrom(text: string, lines: seq<Span>, k: nat, fence: Fence, span: Span)
    requires k <= |lines|
  {
    span in Delimiters(text, lines[k..], fence)
  }

  lemma FoldEnds(text: string, lines: seq<Span>, fence: Fence, span: Span)
    ensures !FoundFrom(text, lines, |lines|, fence, span)
  {
    assert lines[|lines|..] == [];
  }

  lemma FoldStep(text: string, lines: seq<Span>, k: nat, fence: Fence, span: Span)
    requires k < |lines|
    ensures var raw := Slice(text, lines[k]);
      FoundFrom(text, lines, k, fence, span)
      <==> (span == lines[k] && IsDelimiter(fence, raw)) || FoundFrom(text, lines, k + 1, NextFence(fence, raw), span)
  {
    assert lines[k..][0] == lines[k] && lines[k..][1..] == lines[k + 1..];
  }

  lemma {:induction false} FoldFinds(text: string, lines: seq<Span>, k: nat, span: Span)
    requires k <= |lines|
    ensures FoundFrom(text, lines, k, FenceAt(Texts(text, lines), k), span) <==> DividesFrom(text, lines, k, span)
    decreases |lines| - k
  {
    var ls := Texts(text, lines);
    if k < |lines| {
      FoldFinds(text, lines, k + 1, span);
      FoldStep(text, lines, k, FenceAt(ls, k), span);
      assert FenceAt(ls, k + 1) == NextFence(FenceAt(ls, k), ls[k]);
      DividesExactly(ls, k);
      DividesNext(text, lines, k, span);
    } else {
      FoldEnds(text, lines, FenceAt(ls, k), span);
    }
  }

  lemma DividesNext(text: string, lines: seq<Span>, k: nat, span: Span)
    requires k < |lines|
    ensures DividesFrom(text, lines, k, span)
       <==> (lines[k] == span && Divides(Texts(text, lines), k)) || DividesFrom(text, lines, k + 1, span)
  {
  }

  /** The delimiters found are exactly the lines of the text that hold nothing but `---` and space and stand in no
      fenced block. */
  lemma DelimitersExactly(text: string, span: Span)
    ensures span in DelimitersFrom(text, 0, None) <==> DividesFrom(text, LinesFrom(text, 0), 0, span)
    ensures forall line :: line in LinesFrom(text, 0) <==> IsLine(text, line)
  {
    var lines := LinesFrom(text, 0);
    FoldFinds(text, lines, 0, span);
    assert lines[0..] == lines && FoundFrom(text, lines, 0, None, span) == (span in DelimitersFrom(text, 0, None));
    forall line ensures line in lines <==> IsLine(text, line) {
      LinesExactly(text, 0, line);
    }
  }
}
