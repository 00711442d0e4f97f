/**
  Run frames of a cell (extension/src/inspect/run-frame-reader.ts): one record per run, the
  latest run, the history of finished runs and the number of runs.
 */
module RunFrames {
  import opened Common
  import opened Sorting

  datatype Status = Running | Complete | Failed | Interrupted

  /** A parsed record; several records may carry the same run id. */
  datatype Frame = Frame(runId: string, cellId: string, status: Status, startedAt: string)

  predicate Terminal(f: Frame) {
    f.status != Running
  }

  // ---- the order of runs -------------------------------------------------------------------

  /** JavaScript's `<` on strings. */
  predicate Less(a: string, b: string) {
    b != "" && (a == "" || a[0] < b[0] || (a[0] == b[0] && Less(a[1..], b[1..])))
  }

  lemma {:induction false} LessTotal(a: string, b: string)
    ensures a == b || Less(a, b) || Less(b, a)
  {
    if a != "" && b != "" && a[0] == b[0] {
      LessTotal(a[1..], b[1..]);
      assert a == [a[0]] + a[1..] && b == [b[0]] + b[1..];
    }
  }

  lemma {:induction false} LessTransitive(a: string, b: string, c: string)
    requires Less(a, b) && Less(b, c)
    ensures Less(a, c)
  {
    if a != "" && a[0] == b[0] && b[0] == c[0] {
      LessTransitive(a[1..], b[1..], c[1..]);
    }
  }

  lemma {:induction false} LessIrreflexive(a: string)
    ensures !Less(a, a)
  {
    if a != "" {
      LessIrreflexive(a[1..]);
    }
  }

  function CompareDesc(a: Frame, b: Frame): int {
    if a.startedAt == b.startedAt then
      if Less(a.runId, b.runId) then -1 else if Less(b.runId, a.runId) then 1 else 0
    else if Less(a.startedAt, b.startedAt) then 1 else -1
  }

  function CompareAsc(a: Frame, b: Frame): int {
    -CompareDesc(a, b)
  }

  predicate DescLeq(a: Frame, b: Frame) { CompareDesc(a, b) <= 0 }

  predicate AscLeq(a: Frame, b: Frame) { CompareAsc(a, b) <= 0 }

  /** Started later, or at the same time with the smaller run id. */
  predicate Newer(a: Frame, b: Frame) {
    Less(b.startedAt, a.startedAt) || (a.startedAt == b.startedAt && Less(a.runId, b.runId))
  }

  lemma NewerTransitive(a: Frame, b: Frame, c: Frame)
    requires Newer(a, b) && Newer(b, c)
    ensures Newer(a, c)
  {
    if Less(b.startedAt, a.startedAt) && Less(c.startedAt, b.startedAt) {
      LessTransitive(c.startedAt, b.startedAt, a.startedAt);
    } else if a.startedAt == b.startedAt && b.startedAt == c.startedAt {
      LessTransitive(a.runId, b.runId, c.runId);
    }
  }

  lemma NewerIrreflexive(a: Frame)
    ensures !Newer(a, a)
  {
    LessIrreflexive(a.startedAt);
    LessIrreflexive(a.runId);
  }

  /** What the comparators mean. */
  lemma ComparesByAge(a: Frame, b: Frame)
    ensures DescLeq(a, b) <==> Newer(a, b) || (a.startedAt == b.startedAt && a.runId == b.runId)
    ensures AscLeq(a, b) <==> DescLeq(b, a)
  {
    LessTotal(a.startedAt, b.startedAt);
    LessTotal(a.runId, b.runId);
    LessApart(a.startedAt, b.startedAt);
    LessApart(a.runId, b.runId);
    LessIrreflexive(a.startedAt);
    LessIrreflexive(a.runId);
  }

  lemma LessApart(a: string, b: string)
    ensures !(Less(a, b) && Less(b, a))
  {
    if Less(a, b) && Less(b, a) {
      LessTransitive(a, b, a);
      LessIrreflexive(a);
    }
  }

  lemma OrdersTotal()
    ensures Total(DescLeq) && Total(AscLeq)
  {
    forall a, b ensures DescLeq(a, b) || DescLeq(b, a) ensures AscLeq(a, b) || AscLeq(b, a) {
      ComparesByAge(a, b);
      ComparesByAge(b, a);
      LessTotal(a.startedAt, b.startedAt);
      LessTotal(a.runId, b.runId);
    }
    forall a, b, c | DescLeq(a, b) && DescLeq(b, c) ensures DescLeq(a, c) {
      DescTransitive(a, b, c);
    }
    forall a, b, c | AscLeq(a, b) && AscLeq(b, c) ensures AscLeq(a, c) {
      ComparesByAge(a, b);
      ComparesByAge(b, c);
      ComparesByAge(a, c);
      DescTransitive(c, b, a);
    }
  }

  lemma DescTransitive(a: Frame, b: Frame, c: Frame)
    requires DescLeq(a, b) && DescLeq(b, c)
    ensures DescLeq(a, c)
  {
    ComparesByAge(a, b);
    ComparesByAge(b, c);
    ComparesByAge(a, c);
    if Newer(a, b) && Newer(b, c) {
      NewerTransitive(a, b, c);
    }
  }

  // ---- one record per run --------------------------------------------------------------------

  function Lookup(groups: seq<Frame>, run: string): Option<Frame> {
    if groups == [] then None
    else if groups[|groups| - 1].runId == run then Some(groups[|groups| - 1])
    else Lookup(groups[..|groups| - 1], run)
  }

  /** `Map.set` on a key that is present: the entry keeps its place. */
  function Overwrite(groups: seq<Frame>, f: Frame): seq<Frame> {
    if groups == [] then []
    else Overwrite(groups[..|groups| - 1], f)
         + [if groups[|groups| - 1].runId == f.runId then f else groups[|groups| - 1]]
  }

  function Put(groups: seq<Frame>, f: Frame): seq<Frame> {
    var prev := Lookup(groups, f.runId);
    if prev.None? then groups + [f]
    else if Terminal(f) && !Terminal(prev.value) then Overwrite(groups, f)
    else groups
  }

  /** An empty cell id asks for nothing. */
  predicate Of(f: Frame, cell: string) {
    cell != "" && f.cellId == cell
  }

  function Group(frames: seq<Frame>, cell: string): seq<Frame> {
    if frames == [] then []
    else
      var groups := Group(frames[..|frames| - 1], cell);
      if Of(frames[|frames| - 1], cell) then Put(groups, frames[|frames| - 1]) else groups
  }

  method GroupRuns(frames: seq<Frame>, cell: string) returns (best: seq<Frame>)
    requires cell != ""
    ensures best == Group(frames, cell)
  {
    best := [];
    for i := 0 to |frames|
      invariant best == Group(frames[..i], cell)
    {
      assert frames[..i + 1][..i] == frames[..i];
      var f := frames[i];
      if f.cellId != cell {
        continue;
      }
      var prev := Lookup(best, f.runId);
      if prev.None? {
        best := best + [f];
        continue;
      }
      if Terminal(f) && !Terminal(prev.value) {
        best := Overwrite(best, f);
      }
    }
    assert frames[..|frames|] == frames;
  }

  /** The first record of a run, or its first terminal one. */
  function FirstOf(frames: seq<Frame>, cell: string, run: string, terminal: bool): Option<Frame> {
    if frames == [] then None
    else
      var f, before := frames[|frames| - 1], FirstOf(frames[..|frames| - 1], cell, run, terminal);
      if before.Some? then before
      else if Of(f, cell) && f.runId == run && (terminal ==> Terminal(f)) then Some(f)
      else None
  }

  /** The record that stands for a run: its first terminal record, otherwise its first record. */
  function Chosen(frames: seq<Frame>, cell: string, run: string): Option<Frame> {
    var done := FirstOf(frames, cell, run, true);
    if done.Some? then done else FirstOf(frames, cell, run, false)
  }

  lemma {:induction false} FirstIs(frames: seq<Frame>, cell: string, run: string, terminal: bool)
    ensures var r := FirstOf(frames, cell, run, terminal);
      && (r.Some? ==>
            && r.value in frames && Of(r.value, cell) && r.value.runId == run
            && (terminal ==> Terminal(r.value)))
      && (r.None? ==> forall f <- frames :: Of(f, cell) && f.runId == run ==> terminal && !Terminal(f))
  {
    if frames != [] {
      var before := frames[..|frames| - 1];
      FirstIs(before, cell, run, terminal);
      assert forall f <- frames :: f in before || f == frames[|frames| - 1];
    }
  }

  /** A run has a chosen record iff it has any, and a terminal one iff it has any terminal record. */
  lemma ChosenIs(frames: seq<Frame>, cell: string, run: string)
    ensures var r := Chosen(frames, cell, run);
      && (r.Some? <==> exists f :: f in frames && Of(f, cell) && f.runId == run)
      && (r.Some? ==> r.value in frames && Of(r.value, cell) && r.value.runId == run)
      && (r.Some? && Terminal(r.value) <==> exists f :: f in frames && Of(f, cell) && f.runId == run && Terminal(f))
  {
    FirstIs(frames, cell, run, true);
    FirstIs(frames, cell, run, false);
  }

  /** A record of this run of the cell; if `ended` is asked for, one that says how the run ended. */
  predicate RecordOf(f: Frame, cell: string, run: string, ended: bool) {
    cell != "" && f.cellId == cell && f.runId == run && (ended ==> f.status in {Complete, Failed, Interrupted})
  }

  /** Record i is the first of its kind. */
  predicate FirstAt(frames: seq<Frame>, cell: string, run: string, ended: bool, i: nat) {
    && i < |frames| && RecordOf(frames[i], cell, run, ended)
    && forall j :: 0 <= j < i ==> !RecordOf(frames[j], cell, run, ended)
  }

  lemma {:induction false} FirstOfAt(frames: seq<Frame>, cell: string, run: string, ended: bool) returns (i: nat)
    ensures var r := FirstOf(frames, cell, run, ended);
      if r.Some? then FirstAt(frames, cell, run, ended, i) && r.value == frames[i]
      else forall j :: 0 <= j < |frames| ==> !RecordOf(frames[j], cell, run, ended)
  {
    i := 0;
    if frames != [] {
      var n := |frames| - 1;
      i := FirstOfAt(frames[..n], cell, run, ended);
      assert forall j :: 0 <= j < n ==> frames[..n][j] == frames[j];
      if FirstOf(frames[..n], cell, run, ended).None? {
        i := n;
      }
    }
  }

  /** The chosen record is the first that says how the run ended or, if none does, the first of the run. */
  lemma ChosenIsFirst(frames: seq<Frame>, cell: string, run: string, i: nat)
    ensures FirstAt(frames, cell, run, true, i) ==> Chosen(frames, cell, run) == Some(frames[i])
    ensures FirstAt(frames, cell, run, false, i) && (forall f <- frames :: !RecordOf(f, cell, run, true)) ==>
              Chosen(frames, cell, run) == Some(frames[i])
  {
    var a := FirstOfAt(frames, cell, run, true);
    var b := FirstOfAt(frames, cell, run, false);
    assert FirstAt(frames, cell, run, true, i) && FirstAt(frames, cell, run, true, a) ==> i == a;
    assert FirstAt(frames, cell, run, false, i) && FirstAt(frames, cell, run, false, b) ==> i == b;
  }

  lemma {:induction false} LookupIs(groups: seq<Frame>, run: string)
    ensures var r := Lookup(groups, run);
      && (r.Some? ==> r.value in groups && r.value.runId == run)
      && (r.None? ==> forall g <- groups :: g.runId != run)
  {
    if groups != [] {
      LookupIs(groups[..|groups| - 1], run);
      assert forall g <- groups :: g in groups[..|groups| - 1] || g == groups[|groups| - 1];
    }
  }

  lemma {:induction false} LookupOverwrite(groups: seq<Frame>, f: Frame, run: string)
    ensures |Overwrite(groups, f)| == |groups|
    ensures Lookup(Overwrite(groups, f), run)
         == if run == f.runId && Lookup(groups, run).Some? then Some(f) else Lookup(groups, run)
  {
    if groups != [] {
      var n := |groups| - 1;
      LookupOverwrite(groups[..n], f, run);
      assert Overwrite(groups, f)[..n] == Overwrite(groups[..n], f);
    }
  }

  lemma LookupAppend(groups: seq<Frame>, f: Frame, run: string)
    ensures Lookup(groups + [f], run) == if run == f.runId then Some(f) else Lookup(groups, run)
  {
    assert (groups + [f])[..|groups|] == groups;
  }

  /** A record of the run replaces what stands for it only if it ends the run. */
  function Prefer(prev: Option<Frame>, f: Frame): Option<Frame> {
    if prev.None? || (Terminal(f) && !Terminal(prev.value)) then Some(f) else prev
  }

  lemma LookupPut(groups: seq<Frame>, f: Frame, run: string)
    ensures Lookup(Put(groups, f), run)
         == if run == f.runId then Prefer(Lookup(groups, run), f) else Lookup(groups, run)
  {
    LookupAppend(groups, f, run);
    LookupOverwrite(groups, f, run);
  }

  lemma ChosenStep(frames: seq<Frame>, cell: string, run: string)
    requires frames != []
    ensures var before, f := frames[..|frames| - 1], frames[|frames| - 1];
      Chosen(frames, cell, run)
      == if Of(f, cell) && f.runId == run then Prefer(Chosen(before, cell, run), f) else Chosen(before, cell, run)
  {
    FirstIs(frames[..|frames| - 1], cell, run, true);
    FirstIs(frames[..|frames| - 1], cell, run, false);
  }

  /** The grouping loop keeps, for every run, exactly the record that stands for it. */
  lemma {:induction false} GroupChooses(frames: seq<Frame>, cell: string, run: string)
    ensures Lookup(Group(frames, cell), run) == Chosen(frames, cell, run)
  {
    if frames != [] {
      var before, f := frames[..|frames| - 1], frames[|frames| - 1];
      GroupChooses(before, cell, run);
      ChosenStep(frames, cell, run);
      LookupPut(Group(before, cell), f, run);
    }
  }

  predicate Distinct(groups: seq<Frame>) {
    forall i, j :: 0 <= i < j < |groups| ==> groups[i].runId != groups[j].runId
  }

  lemma {:induction false} OverwriteAt(groups: seq<Frame>, f: Frame)
    ensures |Overwrite(groups, f)| == |groups|
    ensures forall i :: 0 <= i < |groups| ==> Overwrite(groups, f)[i].runId == groups[i].runId
  {
    if groups != [] {
      OverwriteAt(groups[..|groups| - 1], f);
    }
  }

  lemma {:induction false} GroupDistinct(frames: seq<Frame>, cell: string)
    ensures Distinct(Group(frames, cell))
  {
    if frames != [] {
      var f, groups := frames[|frames| - 1], Group(frames[..|frames| - 1], cell);
      GroupDistinct(frames[..|frames| - 1], cell);
      LookupIs(groups, f.runId);
      OverwriteAt(groups, f);
    }
  }

  lemma {:induction false} LookupDistinct(groups: seq<Frame>, i: nat)
    requires Distinct(groups) && i < |groups|
    ensures Lookup(groups, groups[i].runId) == Some(groups[i])
  {
    var n := |groups| - 1;
    if i < n {
      LookupDistinct(groups[..n], i);
    }
  }

  /** What the grouped runs are, without the loop. */
  lemma GroupIs(frames: seq<Frame>, cell: string)
    ensures Distinct(Group(frames, cell))
    ensures forall g :: g in Group(frames, cell) <==> Chosen(frames, cell, g.runId) == Some(g)
  {
    var groups := Group(frames, cell);
    GroupDistinct(frames, cell);
    forall g ensures g in groups <==> Chosen(frames, cell, g.runId) == Some(g) {
      GroupChooses(frames, cell, g.runId);
      LookupIs(groups, g.runId);
      if g in groups {
        var i :| 0 <= i < |groups| && groups[i] == g;
        LookupDistinct(groups, i);
      }
    }
  }

  // ---- the latest run ------------------------------------------------------------------------

  /** `f` stands for its run and is newer than what stands for any other run of the cell. */
  ghost predicate IsLatest(frames: seq<Frame>, cell: string, f: Frame) {
    && Chosen(frames, cell, f.runId) == Some(f)
    && forall g: Frame :: Chosen(frames, cell, g.runId) == Some(g) && g.runId != f.runId ==> Newer(f, g)
  }

  method LatestRunFrame(frames: seq<Frame>, cell: string) returns (r: Option<Frame>)
    ensures r.None? <==> forall f <- frames :: !Of(f, cell)
    ensures r.Some? ==> IsLatest(frames, cell, r.value)
  {
    if cell == "" {
      return None;
    }
    var candidates := GroupRuns(frames, cell);
    LatestIsNewest(frames, cell);
    if |candidates| == 0 {
      return None;
    }
    SortPermutes(DescLeq, candidates);
    candidates := Sort(DescLeq, candidates);
    return Some(candidates[0]);
  }

  lemma LatestIsNewest(frames: seq<Frame>, cell: string)
    ensures var groups := Group(frames, cell);
      && (groups == [] <==> forall f <- frames :: !Of(f, cell))
      && |Sort(DescLeq, groups)| == |groups|
      && (groups != [] ==> IsLatest(frames, cell, Sort(DescLeq, groups)[0]))
  {
    var groups := Group(frames, cell);
    var sorted := Sort(DescLeq, groups);
    SortPermutes(DescLeq, groups);
    GroupIs(frames, cell);
    GroupEmpty(frames, cell);
    if groups != [] {
      OrdersTotal();
      SortSorts(DescLeq, groups);
      SortHolds(DescLeq, groups, sorted[0]);
      forall g: Frame | Chosen(frames, cell, g.runId) == Some(g) && g.runId != sorted[0].runId
        ensures Newer(sorted[0], g)
      {
        SortHolds(DescLeq, groups, g);
        assert DescLeq(sorted[0], g);
        ComparesByAge(sorted[0], g);
      }
    }
  }

  lemma GroupEmpty(frames: seq<Frame>, cell: string)
    ensures Group(frames, cell) == [] <==> forall f <- frames :: !Of(f, cell)
  {
    GroupIs(frames, cell);
    forall f | f in frames && Of(f, cell) ensures Group(frames, cell) != [] {
      ChosenIs(frames, cell, f.runId);
    }
    if Group(frames, cell) != [] {
      var g := Group(frames, cell)[0];
      ChosenIs(frames, cell, g.runId);
    }
  }

  // ---- the history -----------------------------------------------------------------------------

  function Finished(groups: seq<Frame>): seq<Frame> {
    if groups == [] then []
    else Finished(groups[..|groups| - 1])
         + if Terminal(groups[|groups| - 1]) then [groups[|groups| - 1]] else []
  }

  lemma {:induction false} FinishedIs(groups: seq<Frame>)
    ensures forall g :: g in Finished(groups) <==> g in groups && Terminal(g)
  {
    if groups != [] {
      FinishedIs(groups[..|groups| - 1]);
      assert groups == groups[..|groups| - 1] + [groups[|groups| - 1]];
    }
  }

  lemma {:induction false} FinishedDistinct(groups: seq<Frame>)
    requires Distinct(groups)
    ensures Distinct(Finished(groups))
  {
    if groups != [] {
      var n := |groups| - 1;
      FinishedDistinct(groups[..n]);
      FinishedIs(groups[..n]);
      var init := Finished(groups[..n]);
      forall i | 0 <= i < |init| ensures init[i].runId != groups[n].runId {
        assert init[i] in groups[..n];
      }
    }
  }

  /** Exactly the runs with a terminal record, each once, oldest first: the reverse of newest first. */
  ghost predicate IsHistory(frames: seq<Frame>, cell: string, h: seq<Frame>) {
    && (forall f :: f in h <==> Chosen(frames, cell, f.runId) == Some(f) && Terminal(f))
    && (forall i, j :: 0 <= i < j < |h| ==> Newer(h[j], h[i]))
  }

  method RunFrameHistory(frames: seq<Frame>, cell: string) returns (h: seq<Frame>)
    ensures IsHistory(frames, cell, h)
  {
    if cell == "" {
      NoCell(frames, "");
      return [];
    }
    var runs := GroupRuns(frames, cell);
    HistoryOrdered(frames, cell);
    h := Sort(AscLeq, Finished(runs));
  }

  lemma NoCell(frames: seq<Frame>, cell: string)
    requires cell == ""
    ensures IsHistory(frames, cell, [])
  {
    forall f: Frame ensures Chosen(frames, cell, f.runId) != Some(f) {
      ChosenIs(frames, cell, f.runId);
    }
  }

  lemma HistoryOrdered(frames: seq<Frame>, cell: string)
    ensures IsHistory(frames, cell, Sort(AscLeq, Finished(Group(frames, cell))))
  {
    var done := Finished(Group(frames, cell));
    var h := Sort(AscLeq, done);
    GroupIs(frames, cell);
    FinishedIs(Group(frames, cell));
    forall f ensures f in h <==> f in done {
      SortHolds(AscLeq, done, f);
    }
    FinishedDistinct(Group(frames, cell));
    SortStrict(done);
  }

  /** Records of different runs never tie. */
  lemma SortStrict(runs: seq<Frame>)
    requires Distinct(runs)
    ensures var h := Sort(AscLeq, runs); forall i, j :: 0 <= i < j < |h| ==> Newer(h[j], h[i])
  {
    var h := Sort(AscLeq, runs);
    OrdersTotal();
    SortSorts(AscLeq, runs);
    SortPermutes(AscLeq, runs);
    forall i, j | 0 <= i < j < |h| ensures Newer(h[j], h[i]) {
      assert AscLeq(h[i], h[j]);
      ComparesByAge(h[i], h[j]);
      ComparesByAge(h[j], h[i]);
      DistinctPermuted(runs, h, i, j);
    }
  }

  lemma DistinctPermuted(runs: seq<Frame>, h: seq<Frame>, i: nat, j: nat)
    requires Distinct(runs) && multiset(h) == multiset(runs) && i < j < |h|
    ensures h[i].runId != h[j].runId
  {
    assert h[i] in multiset(h) && h[j] in multiset(h);
    var a :| 0 <= a < |runs| && runs[a] == h[i];
    var b :| 0 <= b < |runs| && runs[b] == h[j];
    if a == b {
      TwiceIn(h, i, j);
      OnceIn(runs, a);
    }
  }

  lemma TwiceIn(s: seq<Frame>, i: nat, j: nat)
    requires i < j < |s| && s[i] == s[j]
    ensures multiset(s)[s[i]] >= 2
  {
    assert s == s[..j] + s[j..];
    assert s[i] in s[..j] && s[j] in s[j..];
    assert s[..j][i] == s[i] && s[j..][0] == s[j];
    assert s[i] in multiset(s[..j]) && s[j] in multiset(s[j..]);
  }

  lemma OnceIn(s: seq<Frame>, a: nat)
    requires Distinct(s) && a < |s|
    ensures multiset(s)[s[a]] == 1
  {
    assert s == s[..a] + [s[a]] + s[a + 1..];
    assert s[a] !in s[..a] && s[a] !in s[a + 1..];
  }

  /** A latest run that has ended is the last entry of the history. */
  lemma LatestEndsHistory(frames: seq<Frame>, cell: string, f: Frame, h: seq<Frame>)
    requires IsLatest(frames, cell, f) && IsHistory(frames, cell, h) && Terminal(f)
    ensures h != [] && h[|h| - 1] == f
  {
    assert f in h;
    var i :| 0 <= i < |h| && h[i] == f;
    var last := h[|h| - 1];
    assert last in h;
    if i < |h| - 1 {
      assert Newer(last, f);
      if last.runId != f.runId {
        NewerTransitive(f, last, f);
      }
      NewerIrreflexive(f);
    }
  }

  // ---- the number of runs ----------------------------------------------------------------------

  method RunCount(frames: seq<Frame>, cell: string) returns (n: nat)
    ensures n == |set f | f in frames && Of(f, cell) :: f.runId|
    ensures n == |Group(frames, cell)|
  {
    CountIsGroups(frames, cell);
    if cell == "" {
      assert forall f <- frames :: !Of(f, cell);
      return 0;
    }
    var ids: set<string> := {};
    for i := 0 to |frames|
      invariant ids == set f | f in frames[..i] && Of(f, cell) :: f.runId
    {
      assert forall f :: f in frames[..i + 1] <==> f in frames[..i] || f == frames[i];
      if frames[i].cellId == cell {
        ids := ids + {frames[i].runId};
      }
    }
    assert frames[..|frames|] == frames;
    return |ids|;
  }

  lemma CountIsGroups(frames: seq<Frame>, cell: string)
    ensures |Group(frames, cell)| == |set f | f in frames && Of(f, cell) :: f.runId|
  {
    var groups := Group(frames, cell);
    var ids := set f | f in frames && Of(f, cell) :: f.runId;
    GroupIs(frames, cell);
    forall run ensures run in ids <==> exists g :: g in groups && g.runId == run {
      ChosenIs(frames, cell, run);
      GroupChooses(frames, cell, run);
      LookupIs(groups, run);
    }
    assert ids == set g | g in groups :: g.runId;
    DistinctCount(groups);
  }

  lemma {:induction false} DistinctCount(groups: seq<Frame>)
    requires Distinct(groups)
    ensures |set g | g in groups :: g.runId| == |groups|
  {
    if groups != [] {
      var n := |groups| - 1;
      DistinctCount(groups[..n]);
      assert (set g | g in groups :: g.runId) == (set g | g in groups[..n] :: g.runId) + {groups[n].runId};
    }
  }
}
