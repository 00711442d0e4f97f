/**
  The chat-export pipeline (_ingest/scripts/build_turn_index.py and split_into_phases.py):
  delimiters outside code fences, line numbers, sections, merged turns, phase expansion.
 */
module Turns {
  import opened Common

  // ---- delimiters ----------------------------------------------------------------------------------

  datatype Span = Span(start: nat, end: nat)

  /** The open fence marker, if inside a fenced block. */
  type Fence = Option<string>

  predicate IsPySpace(c: char) {
    || 9 <= c as int <= 13 || 28 <= c as int <= 32 || c as int == 0x85 || c as int == 0xA0
    || c as int == 0x1680 || 0x2000 <= c as int <= 0x200A || c as int == 0x2028 || c as int == 0x2029
    || c as int == 0x202F || c as int == 0x205F || c as int == 0x3000
  }

  function StripLeft(s: string): string {
    if s != "" && IsPySpace(s[0]) then StripLeft(s[1..]) else s
  }

  function StripRight(s: string): string {
    if s != "" && IsPySpace(s[|s| - 1]) then StripRight(s[..|s| - 1]) else s
  }

  function StripCRs(s: string): string {
    if s != "" && s[|s| - 1] == '\r' then StripCRs(s[..|s| - 1]) else s
  }

  predicate OpensFence(line: string) {
    "```" <= line || "~~~" <= line
  }

  /** The fence automaton on one line. */
  function NextFence(fence: Fence, raw: string): Fence {
    var line := StripCRs(raw);
    if !OpensFence(line) then fence
    else if fence.None? then Some(line[..3])
    else if fence.value <= line then None
    else fence
  }

  predicate IsDelimiter(fence: Fence, raw: string) {
    var line := StripCRs(raw);
    !OpensFence(line) && fence.None? && StripRight(StripLeft(line)) == "---"
  }

  /** The end of the line that starts at `i`: the next line break, or the end of the text. */
  function LineEnd(text: string, i: nat): (e: nat)
    requires i <= |text|
    ensures i <= e <= |text|
    decreases |text| - i
  {
    if i == |text| || text[i] == '\n' then i else LineEnd(text, i + 1)
  }

  /** The lines of a text from an offset on; a final line break opens no further line. */
  function LinesFrom(text: string, i: nat): seq<Span>
    decreases |text| - i
  {
    if i >= |text| then [] else var e := LineEnd(text, i); [Span(i, e)] + LinesFrom(text, e + 1)
  }

  predicate InText(text: string, lines: seq<Span>) {
    forall i :: 0 <= i < |lines| ==> lines[i].start <= lines[i].end <= |text|
  }

  /** Each line starts at or after `i` and after the one before it ends. */
  predicate Rising(lines: seq<Span>, i: nat) {
    && (forall k :: 0 <= k < |lines| ==> i <= lines[k].start)
    && (forall a, b :: 0 <= a < b < |lines| ==> lines[a].end < lines[b].start)
  }

  lemma {:induction false} LinesInText(text: string, i: nat)
    ensures InText(text, LinesFrom(text, i)) && Rising(LinesFrom(text, i), i)
    decreases |text| - i
  {
    if i < |text| {
      var e := LineEnd(text, i);
      LinesInText(text, e + 1);
      RisingCons(Span(i, e), LinesFrom(text, e + 1));
    }
  }

  lemma RisingCons(line: Span, rest: seq<Span>)
    requires line.start <= line.end && Rising(rest, line.end + 1)
    ensures Rising([line] + rest, line.start)
  {
    var ls := [line] + rest;
    forall k | 0 <= k < |ls| ensures line.start <= ls[k].start {
      if k > 0 { assert ls[k] == rest[k - 1]; }
    }
    forall a, b | 0 <= a < b < |ls| ensures ls[a].end < ls[b].start {
      assert ls[b] == rest[b - 1];
      if a > 0 { assert ls[a] == rest[a - 1]; }
    }
  }

  function Slice(text: string, line: Span): string {
    if line.start <= line.end <= |text| then text[line.start..line.end] else ""
  }

  /** Folding the automaton over lines. */
  function Delimiters(text: string, lines: seq<Span>, fence: Fence): seq<Span> {
    if lines == [] then []
    else
      var raw := Slice(text, lines[0]);
      (if IsDelimiter(fence, raw) then [lines[0]] else []) + Delimiters(text, lines[1..], NextFence(fence, raw))
  }

  predicate NoBreak(text: string, a: nat, b: nat) {
    forall k :: a <= k < b && k < |text| ==> text[k] != '\n'
  }

  lemma {:induction false} LineEndIs(text: string, i: nat, e: nat)
    requires i <= e <= |text| && NoBreak(text, i, e) && (e == |text| || text[e] == '\n')
    ensures LineEnd(text, i) == e
    decreases e - i
  {
    if i < e {
      LineEndIs(text, i + 1, e);
    }
  }

  function DelimitersFrom(text: string, i: nat, fence: Fence): seq<Span> {
    Delimiters(text, LinesFrom(text, i), fence)
  }

  /** One line of the fold: what it contributes and where the next line starts. */
  lemma LineStep(text: string, i: nat, e: nat, next: nat, fence: Fence)
    requires i < |text| && i <= e <= |text| && NoBreak(text, i, e) && (e == |text| || text[e] == '\n')
    requires next == e + 1 || (e == |text| && next == e)
    ensures var raw := text[i..e];
      DelimitersFrom(text, i, fence)
      == (if IsDelimiter(fence, raw) then [Span(i, e)] else []) + DelimitersFrom(text, next, NextFence(fence, raw))
  {
    LineEndIs(text, i, e);
    assert LinesFrom(text, i) == [Span(i, e)] + LinesFrom(text, e + 1);
    assert LinesFrom(text, i)[1..] == LinesFrom(text, e + 1);
    assert LinesFrom(text, e + 1) == LinesFrom(text, next);
  }

  /** With the lines before `i` done, `found` so far and the rest to come make up all delimiters. */
  ghost predicate Scanned(text: string, i: nat, fence: Fence, found: seq<Span>) {
    found + DelimitersFrom(text, i, fence) == DelimitersFrom(text, 0, None)
  }

  lemma ScanStep(text: string, i: nat, e: nat, next: nat, fence: Fence, found: seq<Span>)
    requires i < |text| && i <= e <= |text| && NoBreak(text, i, e) && (e == |text| || text[e] == '\n')
    requires next == e + 1 || (e == |text| && next == e)
    requires Scanned(text, i, fence, found)
    ensures Scanned(text, next, NextFence(fence, text[i..e]),
                    if IsDelimiter(fence, text[i..e]) then found + [Span(i, e)] else found)
  {
    LineStep(text, i, e, next, fence);
    var rest := DelimitersFrom(text, next, NextFence(fence, text[i..e]));
    if IsDelimiter(fence, text[i..e]) {
      Regroup(found, [Span(i, e)], rest);
    } else {
      assert [] + rest == rest;
    }
  }

  lemma ScanEnds(text: string)
    ensures Scanned(text, 0, None, [])
    ensures forall fence: Fence, found :: Scanned(text, |text|, fence, found) ==> found == DelimitersFrom(text, 0, None)
  {
    assert [] + DelimitersFrom(text, 0, None) == DelimitersFrom(text, 0, None);
  }

  /** The source's character loop is the fold of the automaton over the lines. */
  method FindRealDelimiters(text: string) returns (result: seq<Span>)
    ensures result == DelimitersFrom(text, 0, None)
  {
    result := [];
    var fence: Fence := None;
    var lineStart := 0;
    ScanEnds(text);
    for i := 0 to |text|
      invariant lineStart <= i && NoBreak(text, lineStart, i)
      invariant i == |text| ==> lineStart == i
      invariant Scanned(text, lineStart, fence, result)
    {
      if text[i] == '\n' || i == |text| - 1 {
        var lineEnd := if text[i] == '\n' then i else i + 1;
        result, fence := ScanLine(text, lineStart, lineEnd, i + 1, fence, result);
        lineStart := i + 1;
      }
    }
  }

  /** The body of the loop at the end of a line. */
  method ScanLine(text: string, i: nat, e: nat, next: nat, fence: Fence, found: seq<Span>)
    returns (result: seq<Span>, after: Fence)
    requires i < |text| && i <= e <= |text| && NoBreak(text, i, e) && (e == |text| || text[e] == '\n')
    requires next == e + 1 || (e == |text| && next == e)
    requires Scanned(text, i, fence, found)
    ensures Scanned(text, next, after, result)
  {
    ScanStep(text, i, e, next, fence, found);
    result, after := found, fence;
    var stripped := StripCRs(text[i..e]);
    if OpensFence(stripped) {
      var marker := stripped[..3];
      if fence.None? {
        after := Some(marker);
      } else if fence.value <= stripped {
        after := None;
      }
    } else if fence.None? && StripRight(StripLeft(stripped)) == "---" {
      result := result + [Span(i, e)];
    }
  }

  // ---- line numbers ----------------------------------------------------------------------------------

  function Breaks(text: string): nat {
    if text == "" then 0 else Breaks(text[..|text| - 1]) + if text[|text| - 1] == '\n' then 1 else 0
  }

  /** Where the lines that begin within the first n characters begin. */
  function Starts(text: string, n: nat): seq<nat>
    requires n <= |text|
  {
    if n == 0 then [0] else Starts(text, n - 1) + if text[n - 1] == '\n' then [n] else []
  }

  lemma {:induction false} StartsShape(text: string, n: nat)
    requires n <= |text|
    ensures var t := Starts(text, n);
      && |t| == 1 + Breaks(text[..n])
      && (forall k :: 0 <= k < |t| ==> t[k] <= n)
      && (forall a, b :: 0 <= a < b < |t| ==> t[a] < t[b])
  {
    if n > 0 {
      StartsShape(text, n - 1);
      assert text[..n][..n - 1] == text[..n - 1];
    }
  }

  lemma {:induction false} StartsExtend(text: string, m: nat, n: nat)
    requires m <= n <= |text|
    ensures Starts(text, m) <= Starts(text, n)
    ensures forall k :: |Starts(text, m)| <= k < |Starts(text, n)| ==> Starts(text, n)[k] > m
  {
    if m < n {
      StartsExtend(text, m, n - 1);
    }
  }

  method LineStarts(text: string) returns (starts: seq<nat>)
    ensures starts == Starts(text, |text|)
  {
    starts := [0];
    for i := 0 to |text|
      invariant starts == Starts(text, i)
    {
      if text[i] == '\n' {
        starts := starts + [i + 1];
      }
    }
  }

  /** The source's binary search: a line number is one plus the line breaks before the offset. */
  method LineOf(text: string, starts: seq<nat>, offset: nat) returns (line: nat)
    requires starts == Starts(text, |text|) && offset <= |text|
    ensures line == 1 + Breaks(text[..offset])
  {
    StartsShape(text, |text|);
    StartsShape(text, offset);
    StartsExtend(text, offset, |text|);
    var lo, hi := 0, |starts| - 1;
    while lo < hi
      invariant 0 <= lo <= hi < |starts|
      invariant starts[lo] <= offset
      invariant forall k :: hi < k < |starts| ==> starts[k] > offset
    {
      var mid := (lo + hi + 1) / 2;
      if starts[mid] <= offset {
        lo := mid;
      } else {
        hi := mid - 1;
      }
    }
    var n := |Starts(text, offset)|;
    assert starts[n - 1] == Starts(text, offset)[n - 1] && lo == n - 1;
    line := lo + 1;
  }

  // ---- sections ----------------------------------------------------------------------------------------

  predicate OnlyBreaks(s: string) {
    forall i :: 0 <= i < |s| ==> s[i] == '\n'
  }

  /** `rstrip("\n")` */
  function StripBreaks(s: string): string {
    if s != "" && s[|s| - 1] == '\n' then StripBreaks(s[..|s| - 1]) else s
  }

  lemma {:induction false} StripsToNothing(s: string)
    ensures StripBreaks(s) == "" <==> OnlyBreaks(s)
  {
    if s != "" && s[|s| - 1] == '\n' {
      StripsToNothing(s[..|s| - 1]);
      assert OnlyBreaks(s[..|s| - 1]) ==> OnlyBreaks(s);
    }
  }

  datatype Kind = Preamble | Between | Postamble
  datatype Section = Section(kind: Kind, start: nat, end: nat)

  predicate Ordered(text: string, delims: seq<Span>) {
    && (forall i :: 0 <= i < |delims| ==> delims[i].start <= delims[i].end <= |text|)
    && (forall i, j :: 0 <= i < j < |delims| ==> delims[i].end <= delims[j].start)
  }

  method Sections(text: string, delims: seq<Span>) returns (sections: seq<Section>)
    requires delims != [] && delims[|delims| - 1].end <= |text|
    ensures sections == SectionsOf(text, delims)
  {
    sections := [];
    if delims[0].start > 0 {
      sections := [Section(Preamble, 0, delims[0].start)];
    }
    for i := 0 to |delims| - 1
      invariant sections == Opening(delims) + Betweens(delims, i)
    {
      sections := sections + [Section(Between, delims[i].end, delims[i + 1].start)];
    }
    var end := delims[|delims| - 1].end;
    var post := Rest(text, end);
    sections := sections + post;
  }

  /** The postamble, unless nothing but line breaks is left. */
  method Rest(text: string, end: nat) returns (post: seq<Section>)
    requires end <= |text|
    ensures post == Closing(text, end)
  {
    StripsToNothing(text[end..]);
    post := [];
    if end < |text| && StripBreaks(text[end..]) != "" {
      post := [Section(Postamble, end, |text|)];
    }
  }

  function Opening(delims: seq<Span>): seq<Section>
    requires delims != []
  {
    if delims[0].start > 0 then [Section(Preamble, 0, delims[0].start)] else []
  }

  function Closing(text: string, end: nat): seq<Section>
    requires end <= |text|
  {
    if OnlyBreaks(text[end..]) then [] else [Section(Postamble, end, |text|)]
  }

  /** A preamble unless the text opens with a delimiter, the stretches between delimiters, and the rest of
      the text unless it holds nothing but line breaks. */
  function SectionsOf(text: string, delims: seq<Span>): seq<Section>
    requires delims != [] && delims[|delims| - 1].end <= |text|
  {
    Opening(delims) + Betweens(delims, |delims| - 1) + Closing(text, delims[|delims| - 1].end)
  }

  function Betweens(delims: seq<Span>, n: nat): seq<Section>
    requires n < |delims|
  {
    if n == 0 then [] else Betweens(delims, n - 1) + [Section(Between, delims[n - 1].end, delims[n].start)]
  }

  /** How many of the sections hold the character at offset k. */
  function InSections(k: nat, ss: seq<Section>): nat {
    if ss == [] then 0
    else InSections(k, ss[..|ss| - 1]) + if ss[|ss| - 1].start <= k < ss[|ss| - 1].end then 1 else 0
  }

  function InDelimiters(k: nat, ds: seq<Span>): nat {
    if ds == [] then 0
    else InDelimiters(k, ds[..|ds| - 1]) + if ds[|ds| - 1].start <= k < ds[|ds| - 1].end then 1 else 0
  }

  lemma {:induction false} InSectionsJoin(k: nat, a: seq<Section>, b: seq<Section>)
    ensures InSections(k, a + b) == InSections(k, a) + InSections(k, b)
  {
    if b == [] {
      assert a + b == a;
    } else {
      assert (a + b)[..|a + b| - 1] == a + b[..|b| - 1];
      InSectionsJoin(k, a, b[..|b| - 1]);
    }
  }

  lemma InSectionsOne(k: nat, ss: seq<Section>)
    requires |ss| == 1
    ensures InSections(k, ss) == if ss[0].start <= k < ss[0].end then 1 else 0
  {
    assert ss[..|ss| - 1] == [];
  }

  /** From the first delimiter to the end of the n-th after it, each character is held once. */
  lemma {:induction false} MiddleOnce(text: string, delims: seq<Span>, n: nat, k: nat)
    requires Ordered(text, delims) && n < |delims|
    ensures InSections(k, Betweens(delims, n)) + InDelimiters(k, delims[..n + 1])
         == if delims[0].start <= k < delims[n].end then 1 else 0
  {
    var upTo := delims[..n + 1];
    assert upTo[..|upTo| - 1] == delims[..n];
    if n == 0 {
      assert delims[..n] == [];
    } else {
      MiddleOnce(text, delims, n - 1, k);
      InSectionsJoin(k, Betweens(delims, n - 1), [Section(Between, delims[n - 1].end, delims[n].start)]);
      InSectionsOne(k, [Section(Between, delims[n - 1].end, delims[n].start)]);
    }
  }

  lemma EndsOnce(text: string, delims: seq<Span>, k: nat)
    requires delims != [] && Ordered(text, delims) && k < |text|
    ensures InSections(k, Opening(delims)) == if k < delims[0].start then 1 else 0
    ensures var end := delims[|delims| - 1].end;
      InSections(k, Closing(text, end)) == if end <= k && !OnlyBreaks(text[end..]) then 1 else 0
  {
    var end := delims[|delims| - 1].end;
    if delims[0].start > 0 {
      InSectionsOne(k, Opening(delims));
    }
    if !OnlyBreaks(text[end..]) {
      InSectionsOne(k, Closing(text, end));
    }
  }

  /** Nothing is lost and nothing is doubled: each character of the text is in exactly one section or
      delimiter, except that a rest of nothing but line breaks after the last delimiter is in none. */
  lemma SectionsTileText(text: string, delims: seq<Span>, k: nat)
    requires delims != [] && Ordered(text, delims) && k < |text|
    ensures var end := delims[|delims| - 1].end;
      InSections(k, SectionsOf(text, delims)) + InDelimiters(k, delims)
      == if end <= k && OnlyBreaks(text[end..]) then 0 else 1
  {
    var n := |delims| - 1;
    var opening, middle, closing := Opening(delims), Betweens(delims, n), Closing(text, delims[n].end);
    InSectionsJoin(k, opening, middle);
    InSectionsJoin(k, opening + middle, closing);
    EndsOnce(text, delims, k);
    MiddleOnce(text, delims, n, k);
    assert delims[..n + 1] == delims;
    FirstBeforeLast(text, delims);
  }

  lemma FirstBeforeLast(text: string, delims: seq<Span>)
    requires delims != [] && Ordered(text, delims)
    ensures delims[0].start <= delims[|delims| - 1].end
  {
    if |delims| > 1 {
      assert delims[0].end <= delims[|delims| - 1].start;
    }
  }

  lemma {:induction false} DelimitersOrdered(text: string, lines: seq<Span>, fence: Fence)
    requires InText(text, lines) && Rising(lines, 0)
    ensures Ordered(text, Delimiters(text, lines, fence))
    ensures forall d <- Delimiters(text, lines, fence) :: d in lines
  {
    if lines != [] {
      var raw := Slice(text, lines[0]);
      var rest := Delimiters(text, lines[1..], NextFence(fence, raw));
      DelimitersOrdered(text, lines[1..], NextFence(fence, raw));
      forall j | 0 <= j < |rest| ensures lines[0].end <= rest[j].start {
        assert rest[j] in lines[1..];
      }
    }
  }

  /** The delimiters found are fit for the section split. */
  lemma FoundOrdered(text: string)
    ensures Ordered(text, DelimitersFrom(text, 0, None))
  {
    LinesInText(text, 0);
    DelimitersOrdered(text, LinesFrom(text, 0), None);
  }

  // ---- merged turns --------------------------------------------------------------------------------------

  datatype Turn = Turn(id: nat, role: string, start: nat, end: nat, chars: nat)
  datatype Merged = Merged(role: string, subIds: seq<nat>, start: nat, end: nat, chars: nat)

  function Ids(run: seq<Turn>): seq<nat> {
    if run == [] then [] else Ids(run[..|run| - 1]) + [run[|run| - 1].id]
  }

  function Chars(run: seq<Turn>): nat {
    if run == [] then 0 else Chars(run[..|run| - 1]) + run[|run| - 1].chars
  }

  /** What the index keeps of a run of sub-turns with one role. */
  function Summary(run: seq<Turn>): Merged
    requires run != []
  {
    Merged(run[0].role, Ids(run), run[0].start, run[|run| - 1].end, Chars(run))
  }

  function Concat<T>(runs: seq<seq<T>>): seq<T> {
    if runs == [] then [] else Concat(runs[..|runs| - 1]) + runs[|runs| - 1]
  }

  predicate OneRole(run: seq<Turn>) {
    run != [] && forall t <- run :: t.role == run[0].role
  }

  /** `merged` is the run-length view of `runs`: one entry per run, and neighbouring roles differ. */
  predicate Merges(merged: seq<Merged>, runs: seq<seq<Turn>>) {
    && |merged| == |runs|
    && (forall i :: 0 <= i < |runs| ==> OneRole(runs[i]) && merged[i] == Summary(runs[i]))
    && (forall i :: 0 <= i < |merged| - 1 ==> merged[i].role != merged[i + 1].role)
  }

  ghost predicate IsMerge(turns: seq<Turn>, merged: seq<Merged>) {
    exists runs :: Concat(runs) == turns && Merges(merged, runs)
  }

  lemma ExtendRun(merged: seq<Merged>, runs: seq<seq<Turn>>, t: Turn)
    requires Merges(merged, runs) && merged != [] && merged[|merged| - 1].role == t.role
    ensures var n := |merged| - 1; var m := merged[n];
      && Merges(merged[n := Merged(m.role, m.subIds + [t.id], m.start, t.end, m.chars + t.chars)],
                runs[n := runs[n] + [t]])
      && Concat(runs[n := runs[n] + [t]]) == Concat(runs) + [t]
  {
    var n := |merged| - 1;
    var run := runs[n] + [t];
    assert run[..|run| - 1] == runs[n];
    var m := merged[n];
    assert Summary(run) == Merged(m.role, m.subIds + [t.id], m.start, t.end, m.chars + t.chars);
    assert runs[n := run][..n] == runs[..n];
  }

  lemma OneTurn(run: seq<Turn>)
    requires |run| == 1
    ensures Ids(run) == [run[0].id] && Chars(run) == run[0].chars
  {
    var none := run[..|run| - 1];
    assert none == [] && Ids(none) == [] && Chars(none) == 0;
  }

  lemma StartRun(merged: seq<Merged>, runs: seq<seq<Turn>>, t: Turn)
    requires Merges(merged, runs) && (merged == [] || merged[|merged| - 1].role != t.role)
    ensures Merges(merged + [Merged(t.role, [t.id], t.start, t.end, t.chars)], runs + [[t]])
    ensures Concat(runs + [[t]]) == Concat(runs) + [t]
  {
    OneTurn([t]);
    assert (runs + [[t]])[..|runs|] == runs;
  }

  /** The body of the merge loop: the turn joins the last merged turn or opens a new one. */
  method AddTurn(before: seq<Merged>, ghost was: seq<seq<Turn>>, t: Turn)
    returns (merged: seq<Merged>, ghost runs: seq<seq<Turn>>)
    requires Merges(before, was)
    ensures Merges(merged, runs) && Concat(runs) == Concat(was) + [t]
  {
    var n := |before| - 1;
    if before != [] && before[n].role == t.role {
      ExtendRun(before, was, t);
      var m := before[n];
      merged := before[n := Merged(m.role, m.subIds + [t.id], m.start, t.end, m.chars + t.chars)];
      runs := was[n := was[n] + [t]];
    } else {
      StartRun(before, was, t);
      merged := before + [Merged(t.role, [t.id], t.start, t.end, t.chars)];
      runs := was + [[t]];
    }
  }

  /** Collapsing runs of equal roles: the sub-turns split, in order and without loss, into runs of one role;
      each merged turn sums up its run, and neighbouring merged turns have different roles. */
  method MergeTurns(turns: seq<Turn>) returns (merged: seq<Merged>)
    ensures IsMerge(turns, merged)
  {
    ghost var runs: seq<seq<Turn>> := [];
    merged := [];
    for i := 0 to |turns|
      invariant Concat(runs) == turns[..i] && Merges(merged, runs)
    {
      merged, runs := AddTurn(merged, runs, turns[i]);
      assert turns[..i + 1] == turns[..i] + [turns[i]];
    }
  }

  function SubIds(merged: seq<Merged>): seq<seq<nat>> {
    if merged == [] then [] else SubIds(merged[..|merged| - 1]) + [merged[|merged| - 1].subIds]
  }

  lemma {:induction false} IdsJoin(a: seq<Turn>, b: seq<Turn>)
    ensures Ids(a + b) == Ids(a) + Ids(b)
  {
    if b == [] {
      assert a + b == a;
    } else {
      assert (a + b)[..|a + b| - 1] == a + b[..|b| - 1];
      IdsJoin(a, b[..|b| - 1]);
    }
  }

  /** Flattening the merged turns gives back the ids of all sub-turns, in order. */
  lemma {:induction false} MergedFlatten(merged: seq<Merged>, runs: seq<seq<Turn>>)
    requires Merges(merged, runs)
    ensures Concat(SubIds(merged)) == Ids(Concat(runs))
  {
    if merged != [] {
      var n := |merged| - 1;
      MergedFlatten(merged[..n], runs[..n]);
      IdsJoin(Concat(runs[..n]), runs[n]);
      var s := SubIds(merged);
      assert s[..|s| - 1] == SubIds(merged[..n]);
      assert merged[n] == Summary(runs[n]);
    }
  }

  /** The run-length view of a log is unique, so it is what any correct merge computes; it flattens to the ids of
      the log. */
  lemma MergesUnique(turns: seq<Turn>, m1: seq<Merged>, m2: seq<Merged>)
    requires IsMerge(turns, m1) && IsMerge(turns, m2)
    ensures m1 == m2 && Concat(SubIds(m1)) == Ids(turns)
  {
    var r1 :| Concat(r1) == turns && Merges(m1, r1);
    var r2 :| Concat(r2) == turns && Merges(m2, r2);
    SameRuns(m1, r1, m2, r2);
    MergedFlatten(m1, r1);
  }

  lemma {:induction false} SameRuns(m1: seq<Merged>, r1: seq<seq<Turn>>, m2: seq<Merged>, r2: seq<seq<Turn>>)
    requires Merges(m1, r1) && Merges(m2, r2) && Concat(r1) == Concat(r2)
    ensures r1 == r2
  {
    if r1 != [] {
      LastRun(m1, r1);
    }
    if r2 != [] {
      LastRun(m2, r2);
    }
    if r1 != [] && r2 != [] {
      var a, b := |r1| - 1, |r2| - 1;
      SameTail(Concat(r1[..a]), r1[a], Concat(r2[..b]), r2[b]);
      SameRuns(m1[..a], r1[..a], m2[..b], r2[..b]);
      SameLast(r1, r2);
    }
  }

  lemma SameLast(r1: seq<seq<Turn>>, r2: seq<seq<Turn>>)
    requires r1 != [] && r2 != [] && r1[..|r1| - 1] == r2[..|r2| - 1] && r1[|r1| - 1] == r2[|r2| - 1]
    ensures r1 == r2
  {
    assert r1 == r1[..|r1| - 1] + [r1[|r1| - 1]] && r2 == r2[..|r2| - 1] + [r2[|r2| - 1]];
  }

  /** The last run is maximal: what stands before it has another role. */
  lemma LastRun(merged: seq<Merged>, runs: seq<seq<Turn>>)
    requires Merges(merged, runs) && runs != []
    ensures var n := |runs| - 1; var before := Concat(runs[..n]);
      && OneRole(runs[n]) && (before != [] ==> before[|before| - 1].role != runs[n][0].role)
      && Concat(runs) == before + runs[n] && Merges(merged[..n], runs[..n])
  {
    var n := |runs| - 1;
    if n > 0 {
      assert runs[..n][..n - 1] == runs[..n - 1];
      var prev := runs[n - 1];
      assert OneRole(prev) && prev[|prev| - 1] in prev;
      assert merged[n - 1] == Summary(prev) && merged[n] == Summary(runs[n]);
      assert merged[n - 1].role != merged[n - 1 + 1].role;
    }
  }

  lemma SameTail(x: seq<Turn>, run: seq<Turn>, y: seq<Turn>, other: seq<Turn>)
    requires OneRole(run) && OneRole(other) && x + run == y + other
    requires x != [] ==> x[|x| - 1].role != run[0].role
    requires y != [] ==> y[|y| - 1].role != other[0].role
    ensures x == y && run == other
  {
    if |x| < |y| {
      LongerHead(x, run, y, other);
    }
    if |y| < |x| {
      LongerHead(y, other, x, run);
    }
    assert x == (x + run)[..|x|] && y == (y + other)[..|y|];
    assert run == (x + run)[|x|..] && other == (y + other)[|y|..];
  }

  lemma LongerHead(x: seq<Turn>, run: seq<Turn>, y: seq<Turn>, other: seq<Turn>)
    requires OneRole(run) && OneRole(other) && x + run == y + other && |x| < |y|
    ensures y[|y| - 1].role == other[0].role
  {
    var k := |y| - 1;
    assert (x + run)[k] == run[k - |x|] && (y + other)[k] == y[k];
    assert (x + run)[|y|] == run[|y| - |x|] && (y + other)[|y|] == other[0];
    assert run[k - |x|] in run && run[|y| - |x|] in run;
  }

  // ---- phases ----------------------------------------------------------------------------------------------

  /** A phase covers the merged turns `first` to `last`, numbered from one. */
  datatype Phase = Phase(first: nat, last: nat)

  /** The sub-turns of merged turns a+1 to b. */
  function SubTurns(merged: seq<seq<nat>>, a: nat, b: nat): seq<nat>
    requires b <= |merged|
  {
    if b <= a then [] else SubTurns(merged, a, b - 1) + merged[b - 1]
  }

  predicate Known(p: Phase, n: nat) {
    p.first <= p.last ==> 1 <= p.first && p.last <= n
  }

  predicate AllKnown(phases: seq<Phase>, n: nat) {
    forall i :: 0 <= i < |phases| ==> Known(phases[i], n)
  }

  function PhaseTurns(p: Phase, merged: seq<seq<nat>>): seq<nat> {
    if 1 <= p.first <= p.last <= |merged| then SubTurns(merged, p.first - 1, p.last) else []
  }

  /** The sub-turns written, phase by phase. */
  function Emitted(phases: seq<Phase>, merged: seq<seq<nat>>): seq<nat> {
    if phases == [] then [] else Emitted(phases[..|phases| - 1], merged) + PhaseTurns(phases[|phases| - 1], merged)
  }

  /** The splitter's inner loop: None is the fatal exit for an unknown merged turn. */
  method ExpandPhase(p: Phase, merged: seq<seq<nat>>) returns (out: Option<seq<nat>>)
    ensures out.Some? <==> Known(p, |merged|)
    ensures out.Some? ==> out.value == PhaseTurns(p, merged)
  {
    var ids: seq<nat> := [];
    var mid := p.first;
    while mid <= p.last
      invariant p.first <= mid && (p.first <= p.last ==> mid <= p.last + 1)
      invariant mid > p.first ==> 1 <= p.first && mid - 1 <= |merged| && ids == SubTurns(merged, p.first - 1, mid - 1)
      invariant mid == p.first ==> ids == []
      invariant p.first > p.last ==> mid == p.first
      decreases p.last + 1 - mid
    {
      if mid < 1 || mid > |merged| {
        return None;
      }
      ids := ids + merged[mid - 1];
      mid := mid + 1;
    }
    if p.first <= p.last {
      assert mid - 1 == p.last;
      assert ids == SubTurns(merged, p.first - 1, p.last);
    }
    return Some(ids);
  }

  lemma EmitOneMore(phases: seq<Phase>, i: nat, merged: seq<seq<nat>>)
    requires i < |phases|
    ensures Emitted(phases[..i + 1], merged) == Emitted(phases[..i], merged) + PhaseTurns(phases[i], merged)
  {
    var upTo := phases[..i + 1];
    assert upTo[..|upTo| - 1] == phases[..i];
  }

  method ExpandPhases(phases: seq<Phase>, merged: seq<seq<nat>>) returns (out: Option<seq<nat>>)
    ensures out.Some? <==> AllKnown(phases, |merged|)
    ensures out.Some? ==> out.value == Emitted(phases, merged)
  {
    var ids: seq<nat> := [];
    for i := 0 to |phases|
      invariant AllKnown(phases[..i], |merged|) && ids == Emitted(phases[..i], merged)
    {
      var turns := ExpandPhase(phases[i], merged);
      if turns.None? {
        return None;
      }
      EmitOneMore(phases, i, merged);
      ids := ids + turns.value;
    }
    assert phases[..|phases|] == phases;
    return Some(ids);
  }

  /** The contiguity check of the verifier script: each phase starts right after the one before; `end`
      is where the last one ends. */
  predicate Contiguous(phases: seq<Phase>, end: nat) {
    if phases == [] then end == 0
    else
      var p := phases[|phases| - 1];
      p.last == end && p.first >= 1 && Contiguous(phases[..|phases| - 1], p.first - 1)
  }

  /** No phase runs backwards; an empty one may. */
  predicate Forward(phases: seq<Phase>) {
    forall i :: 0 <= i < |phases| ==> phases[i].first <= phases[i].last + 1
  }

  lemma {:induction false} SubTurnsJoin(merged: seq<seq<nat>>, a: nat, b: nat, c: nat)
    requires a <= b <= c <= |merged|
    ensures SubTurns(merged, a, b) + SubTurns(merged, b, c) == SubTurns(merged, a, c)
    decreases c - b
  {
    if b < c {
      SubTurnsJoin(merged, a, b, c - 1);
    }
  }

  lemma SubTurnsGrow(merged: seq<seq<nat>>, a: nat, b: nat)
    requires a < b <= |merged| && forall m <- merged :: m != []
    ensures |SubTurns(merged, a, b)| > 0
  {
    assert merged[b - 1] in merged;
  }

  lemma {:induction false} EndKnown(phases: seq<Phase>, n: nat, end: nat)
    requires AllKnown(phases, n) && Contiguous(phases, end)
    ensures end <= n
  {
    if phases != [] {
      var p := phases[|phases| - 1];
      assert Known(p, n);
      EndKnown(phases[..|phases| - 1], n, p.first - 1);
    }
  }

  /** One more phase, whether it goes forward or back. */
  lemma OnePhase(p: Phase, merged: seq<seq<nat>>)
    requires Known(p, |merged|) && 1 <= p.first <= |merged| + 1 && p.last <= |merged| && forall m <- merged :: m != []
    ensures p.first <= p.last + 1 ==>
              SubTurns(merged, 0, p.first - 1) + PhaseTurns(p, merged) == SubTurns(merged, 0, p.last)
    ensures p.first > p.last + 1 ==>
              PhaseTurns(p, merged) == [] && |SubTurns(merged, 0, p.last)| < |SubTurns(merged, 0, p.first - 1)|
  {
    if p.first <= p.last + 1 {
      SubTurnsJoin(merged, 0, p.first - 1, p.last);
      if p.first > p.last {
        assert SubTurns(merged, 0, p.first - 1) + [] == SubTurns(merged, 0, p.last);
      }
    } else {
      SubTurnsJoin(merged, 0, p.last, p.first - 1);
      SubTurnsGrow(merged, p.last, p.first - 1);
    }
  }

  /** Contiguous phases emit at least the sub-turns up to their end, and exactly those if and only if all
      of them go forward. */
  lemma {:induction false} ContiguousEmits(phases: seq<Phase>, merged: seq<seq<nat>>, end: nat)
    requires AllKnown(phases, |merged|) && Contiguous(phases, end) && end <= |merged|
    requires forall m <- merged :: m != []
    ensures |Emitted(phases, merged)| >= |SubTurns(merged, 0, end)|
    ensures Forward(phases) ==> Emitted(phases, merged) == SubTurns(merged, 0, end)
    ensures !Forward(phases) ==> |Emitted(phases, merged)| > |SubTurns(merged, 0, end)|
  {
    if phases != [] {
      var k := |phases| - 1;
      var p, before := phases[k], phases[..k];
      assert Known(p, |merged|);
      EndKnown(before, |merged|, p.first - 1);
      ContiguousEmits(before, merged, p.first - 1);
      OnePhase(p, merged);
      ForwardLast(phases);
      EmitMore(Emitted(before, merged), PhaseTurns(p, merged), SubTurns(merged, 0, p.first - 1),
               SubTurns(merged, 0, end), Forward(before), p.first <= p.last + 1);
    }
  }

  /** What was emitted covers `was`, exactly if all went forward; the next turns bring it to `now`, or back to it. */
  lemma EmitMore(emitted: seq<nat>, next: seq<nat>, was: seq<nat>, now: seq<nat>, exact: bool, forward: bool)
    requires if exact then emitted == was else |emitted| > |was|
    requires if forward then was + next == now else next == [] && |now| < |was|
    ensures if exact && forward then emitted + next == now else |emitted + next| > |now|
  {
  }

  lemma ForwardLast(phases: seq<Phase>)
    requires phases != []
    ensures var k := |phases| - 1;
      Forward(phases) <==> Forward(phases[..k]) && phases[k].first <= phases[k].last + 1
  {
    var k := |phases| - 1;
    assert forall i :: 0 <= i < k ==> phases[..k][i] == phases[i];
    if Forward(phases[..k]) && phases[k].first <= phases[k].last + 1 {
      forall i | 0 <= i < |phases| ensures phases[i].first <= phases[i].last + 1 {
        if i < k { assert phases[..k][i] == phases[i]; }
      }
    }
  }

  /** Phases that pass the contiguity check write every sub-turn exactly once, in order, if and only if
      no phase runs backwards. */
  lemma PhasesCoverOnce(phases: seq<Phase>, merged: seq<seq<nat>>)
    requires AllKnown(phases, |merged|) && Contiguous(phases, |merged|)
    requires forall m <- merged :: m != []
    ensures Emitted(phases, merged) == SubTurns(merged, 0, |merged|) <==> Forward(phases)
  {
    ContiguousEmits(phases, merged, |merged|);
  }

  /** A backward phase passes the contiguity check and writes sub-turns twice. */
  lemma BackwardPhase()
    ensures var phases, merged := [Phase(1, 1), Phase(2, 0), Phase(1, 1)], [[7]];
      Contiguous(phases, 1) && AllKnown(phases, 1) && Emitted(phases, merged) == [7, 7]
  {
    var phases := [Phase(1, 1), Phase(2, 0), Phase(1, 1)];
    var merged := [[7]];
    var two := phases[..2];
    assert two == [Phase(1, 1), Phase(2, 0)] && two[..1] == [Phase(1, 1)] && two[..1][..0] == [];
    assert Contiguous([], 0) && Contiguous([Phase(1, 1)], 1) && Contiguous([Phase(1, 1), Phase(2, 0)], 0);
    assert SubTurns(merged, 0, 0) == [] && SubTurns(merged, 0, 1) == [7];
    assert Emitted([], merged) == [];
    assert Emitted([Phase(1, 1)], merged) == [7];
    assert Emitted([Phase(1, 1), Phase(2, 0)], merged) == [7];
  }
}
