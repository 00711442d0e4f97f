/**
  How often cell executions are ended: a count over every interleaving, and exactly when each
  execution is ended once.
 */
module CellEnds {
  import opened CellExecution

  // ---- what every step keeps, orderly or not -------------------------------------------------

  ghost predicate Bookkept(s: State) {
    && SlotsNameTheirCell(s)
    && (forall k :: k in s.inflight ==> s.execs[s.inflight[k]].phase == Running)
    && (forall i :: 0 <= i < |s.commits| ==> s.commits[i].exec < |s.execs|)
  }

  lemma StepKeepsBooks(s: State, step: Step)
    requires Bookkept(s) && Enabled(s, step)
    ensures Bookkept(Apply(s, step))
  {
    StepKeepsSlots(s, step);
    match step
    case Emit(p) => EmitKeepsBooks(s, p);
    case KernelDone(e) => KernelKeepsBooks(s, e);
    case _ =>
  }

  lemma EmitKeepsBooks(s: State, p: Payload)
    requires Bookkept(s) && SlotsNameTheirCell(Apply(s, Emit(p)))
    ensures Bookkept(Apply(s, Emit(p)))
  {
    if Classify(p) != Dropped && FindExec(s, p.spanId).Some? {
      FoundIsInSlot(s, p.spanId);
    }
  }

  lemma KernelKeepsBooks(s: State, e: nat)
    requires Bookkept(s) && Enabled(s, KernelDone(e)) && SlotsNameTheirCell(Apply(s, KernelDone(e)))
    ensures Bookkept(Apply(s, KernelDone(e)))
  {
    var t := Apply(s, KernelDone(e));
    forall k | k in t.inflight ensures t.execs[t.inflight[k]].phase == Running {
      assert k in s.inflight && t.inflight[k] != e;
    }
  }

  lemma InvIsBookkept(s: State)
    requires Inv(s)
    ensures Bookkept(s)
  {
    forall k | k in s.inflight ensures s.execs[s.inflight[k]].phase == Running {
      assert ExecOk(s, s.inflight[k]) && InSlot(s, s.inflight[k]);
    }
    forall i | 0 <= i < |s.commits| ensures s.commits[i].exec < |s.execs| {
      assert CommitOk(s, i);
    }
  }

  // ---- counting ends ---------------------------------------------------------------------------

  function TotalEnds(execs: seq<Exec>): nat {
    if execs == [] then 0 else TotalEnds(execs[..|execs| - 1]) + Ends(execs[|execs| - 1].journal)
  }

  /** How many executions have ever taken a slot. */
  function Acquired(execs: seq<Exec>): nat {
    if execs == [] then 0
    else Acquired(execs[..|execs| - 1]) + if execs[|execs| - 1].phase == Clearing then 0 else 1
  }

  function Started(x: Exec): int {
    if x.phase == Clearing then 0 else 1
  }

  lemma EndsGrow(j: seq<Act>, a: Act)
    ensures Ends(j + [a]) == Ends(j) + if a.End? then 1 else 0
  {
    assert (j + [a])[..|j|] == j;
  }

  lemma {:induction false} Replaced(execs: seq<Exec>, e: nat, x: Exec)
    requires e < |execs|
    ensures TotalEnds(execs[e := x]) == TotalEnds(execs) - Ends(execs[e].journal) + Ends(x.journal)
    ensures Acquired(execs[e := x]) == Acquired(execs) - Started(execs[e]) + Started(x)
  {
    var n := |execs| - 1;
    if e < n {
      Replaced(execs[..n], e, x);
      assert execs[e := x][..n] == execs[..n][e := x];
    } else {
      assert execs[e := x][..n] == execs[..n];
    }
  }

  /** Recording an act that is no end changes no count; recording an end adds one. */
  lemma Recorded(execs: seq<Exec>, e: nat, act: Act)
    requires e < |execs|
    ensures TotalEnds(Record(execs, e, act)) == TotalEnds(execs) + if act.End? then 1 else 0
    ensures Acquired(Record(execs, e, act)) == Acquired(execs)
  {
    Replaced(execs, e, execs[e].(journal := execs[e].journal + [act]));
    EndsGrow(execs[e].journal, act);
  }

  /** Executions that took a slot and are neither ended, about to be ended, nor still in a slot. */
  function Lost(s: State): int {
    Acquired(s.execs) - (TotalEnds(s.execs) + |s.commits| + |s.inflight|)
  }

  predicate Overwrites(s: State, step: Step)
    requires Enabled(s, step)
  {
    step.ClearDone? && s.execs[step.exec].cell in s.inflight
  }

  /** One step loses an execution exactly if it takes a slot that is not empty. */
  lemma StepLoses(s: State, step: Step)
    requires Bookkept(s) && Enabled(s, step)
    ensures Lost(Apply(s, step)) == Lost(s) + if Overwrites(s, step) then 1 else 0
  {
    match step
    case StartCell(cell) => StartLoses(s, cell);
    case ClearDone(e) => ClearLoses(s, e);
    case Emit(p) => EmitLoses(s, p);
    case CommitDone(i) => Recorded(s.execs, s.commits[i].exec, End(s.commits[i].span.Payload? && s.commits[i].span.ok));
    case KernelDone(e) => KernelLoses(s, e);
    case Bind(_, _) =>
  }

  lemma StartLoses(s: State, cell: CellKey)
    ensures Lost(Apply(s, StartCell(cell))) == Lost(s)
  {
    var x := Exec(cell, Clearing, [Start]);
    assert (s.execs + [x])[..|s.execs|] == s.execs;
    NoEnds([Start]);
  }

  lemma ClearLoses(s: State, e: nat)
    requires Enabled(s, ClearDone(e))
    ensures Lost(Apply(s, ClearDone(e))) == Lost(s) + if Overwrites(s, ClearDone(e)) then 1 else 0
  {
    var x := s.execs[e];
    ClearedExec(s, e);
    TakeCount(s.inflight, x.cell, e);
  }

  lemma ClearedExec(s: State, e: nat)
    requires Enabled(s, ClearDone(e))
    ensures var t := Apply(s, ClearDone(e));
      TotalEnds(t.execs) == TotalEnds(s.execs) && Acquired(t.execs) == Acquired(s.execs) + 1
  {
    var x := s.execs[e];
    var y := x.(journal := x.journal + [Cleared], phase := Running);
    Replaced(s.execs, e, y);
    EndsGrow(x.journal, Cleared);
    assert Apply(s, ClearDone(e)).execs == s.execs[e := y];
  }

  lemma TakeCount(m: map<CellKey, nat>, k: CellKey, e: nat)
    ensures |m[k := e]| == |m| + if k in m then 0 else 1
  {
    assert m[k := e].Keys == m.Keys + {k};
  }

  lemma FreeCount(m: map<CellKey, nat>, k: CellKey)
    ensures |m - {k}| == |m| - if k in m then 1 else 0
  {
    assert (m - {k}).Keys == m.Keys - {k};
  }

  lemma EmitLoses(s: State, p: Payload)
    requires Bookkept(s)
    ensures Lost(Apply(s, Emit(p))) == Lost(s)
  {
    match Classify(p)
    case Dropped =>
    case Completed => ClaimLoses(s, p);
    case _ => AppendLoses(s, p);
  }

  lemma AppendLoses(s: State, p: Payload)
    requires Bookkept(s) && p.Payload?
    ensures Lost(Append(s, p)) == Lost(s)
  {
    if FindExec(s, p.spanId).Some? {
      FoundIsInSlot(s, p.spanId);
      Recorded(s.execs, FindExec(s, p.spanId).value, Output(p));
    }
  }

  lemma ClaimLoses(s: State, p: Payload)
    requires Bookkept(s) && p.Payload?
    ensures Lost(Claim(s, p)) == Lost(s)
  {
    if FindExec(s, p.spanId).Some? {
      FoundIsInSlot(s, p.spanId);
      var f := FindExec(s, p.spanId).value;
      Recorded(s.execs, f, Final(p));
      OnlySlot(s, f);
      FreeCount(s.inflight, s.execs[f].cell);
    }
  }

  /** An execution holds no slot but its own cell's. */
  lemma OnlySlot(s: State, f: nat)
    requires SlotsNameTheirCell(s) && f < |s.execs| && InSlot(s, f)
    ensures WithoutExec(s.inflight, f) == s.inflight - {s.execs[f].cell}
  {
  }

  lemma KernelLoses(s: State, e: nat)
    requires Enabled(s, KernelDone(e))
    ensures Lost(Apply(s, KernelDone(e))) == Lost(s)
  {
    var cell := s.execs[e].cell;
    var ended := if cell in s.inflight then Record(s.execs, e, End(false)) else s.execs;
    Recorded(s.execs, e, End(false));
    Replaced(ended, e, ended[e].(phase := Returned));
    FreeCount(s.inflight, cell);
  }

  /** How often a run takes a slot that is not empty. */
  ghost function OverwriteCount(s: State, steps: seq<Step>): nat
    decreases |steps|
  {
    if steps == [] || !Enabled(s, steps[0]) then 0
    else (if Overwrites(s, steps[0]) then 1 else 0) + OverwriteCount(Apply(s, steps[0]), steps[1..])
  }

  lemma {:induction false} RunLoses(s: State, steps: seq<Step>, t: State)
    requires Bookkept(s) && IsRun(s, steps, t)
    ensures Bookkept(t) && Lost(t) == Lost(s) + OverwriteCount(s, steps)
    decreases |steps|
  {
    if steps != [] {
      StepKeepsBooks(s, steps[0]);
      StepLoses(s, steps[0]);
      RunLoses(Apply(s, steps[0]), steps[1..], t);
    }
  }

  lemma {:induction false} AllAcquired(execs: seq<Exec>)
    requires forall d :: 0 <= d < |execs| ==> execs[d].phase == Returned
    ensures Acquired(execs) == |execs|
  {
    if execs != [] {
      AllAcquired(execs[..|execs| - 1]);
    }
  }

  lemma QuietLost(t: State)
    requires Bookkept(t) && Quiet(t)
    ensures t.inflight == map[] && TotalEnds(t.execs) == |t.execs| - Lost(t)
  {
    AllAcquired(t.execs);
    assert t.inflight == map[];
  }

  /** In every run to a quiet state, restarts included, the ends given are one per execution less one for each
      slot taken from another execution; and no slot is left taken. */
  lemma EndsCounted(steps: seq<Step>, t: State)
    requires IsRun(INITIAL, steps, t) && Quiet(t)
    ensures TotalEnds(t.execs) == |t.execs| - OverwriteCount(INITIAL, steps)
    ensures t.inflight == map[]
  {
    RunLoses(INITIAL, steps, t);
    QuietLost(t);
  }

  // ---- ends of one execution -------------------------------------------------------------------

  function CommitsOf(commits: seq<Commit>, e: nat): nat {
    if commits == [] then 0
    else CommitsOf(commits[..|commits| - 1], e) + if commits[|commits| - 1].exec == e then 1 else 0
  }

  lemma {:induction false} CommitsJoin(a: seq<Commit>, b: seq<Commit>, e: nat)
    ensures CommitsOf(a + b, e) == CommitsOf(a, e) + CommitsOf(b, e)
  {
    if b == [] {
      assert a + b == a;
    } else {
      assert (a + b)[..|a + b| - 1] == a + b[..|b| - 1];
      CommitsJoin(a, b[..|b| - 1], e);
    }
  }

  lemma CommitsRemove(commits: seq<Commit>, i: nat, e: nat)
    requires i < |commits|
    ensures CommitsOf(commits, e)
         == CommitsOf(commits[..i] + commits[i + 1..], e) + if commits[i].exec == e then 1 else 0
  {
    var a, c, b := commits[..i], commits[i], commits[i + 1..];
    assert commits == (a + [c]) + b;
    CommitsJoin(a + [c], b, e);
    CommitsJoin(a, [c], e);
    CommitsJoin(a, b, e);
    assert [c][..0] == [] && CommitsOf([c], e) == CommitsOf([c][..0], e) + if c.exec == e then 1 else 0;
  }

  /** Ends received and ends still due to a closing append. */
  function Due(s: State, e: nat): nat
    requires e < |s.execs|
  {
    Ends(s.execs[e].journal) + CommitsOf(s.commits, e)
  }

  lemma RecordEnds(execs: seq<Exec>, f: nat, act: Act, e: nat)
    requires e < |execs|
    ensures Ends(Record(execs, f, act)[e].journal) == Ends(execs[e].journal) + if e == f && act.End? then 1 else 0
  {
    EndsGrow(execs[e].journal, act);
  }

  /** No step takes an end back. */
  lemma StepDue(s: State, step: Step, e: nat)
    requires Enabled(s, step) && e < |s.execs|
    ensures |Apply(s, step).execs| >= |s.execs| && Due(Apply(s, step), e) >= Due(s, e)
  {
    match step
    case ClearDone(f) => RecordEnds(s.execs, f, Cleared, e);
    case Emit(p) => EmitDue(s, p, e);
    case CommitDone(i) =>
      RecordEnds(s.execs, s.commits[i].exec, End(s.commits[i].span.Payload? && s.commits[i].span.ok), e);
      CommitsRemove(s.commits, i, e);
    case KernelDone(f) => RecordEnds(s.execs, f, End(false), e);
    case _ =>
  }

  lemma EmitDue(s: State, p: Payload, e: nat)
    requires e < |s.execs|
    ensures Due(Apply(s, Emit(p)), e) >= Due(s, e)
  {
    if Classify(p) != Dropped && FindExec(s, p.spanId).Some? {
      var f := FindExec(s, p.spanId).value;
      RecordEnds(s.execs, f, Output(p), e);
      RecordEnds(s.execs, f, Final(p), e);
      CommitsJoin(s.commits, [Commit(f, p)], e);
    }
  }

  lemma {:induction false} RunDue(s: State, steps: seq<Step>, t: State, e: nat)
    requires IsRun(s, steps, t) && e < |s.execs|
    ensures e < |t.execs| && Due(t, e) >= Due(s, e)
    decreases |steps|
  {
    if steps != [] {
      StepDue(s, steps[0], e);
      RunDue(Apply(s, steps[0]), steps[1..], t, e);
    }
  }

  lemma {:induction false} CommitCounts(commits: seq<Commit>, i: nat)
    requires i < |commits|
    ensures CommitsOf(commits, commits[i].exec) >= 1
  {
    if i < |commits| - 1 {
      CommitCounts(commits[..|commits| - 1], i);
    }
  }

  /** A run that comes back to another execution's slot is ended a second time. */
  lemma EndedTwice(s: State, e: nat)
    requires Inv(s) && Enabled(s, KernelDone(e)) && !Orderly(s, KernelDone(e))
    ensures Due(Apply(s, KernelDone(e)), e) >= 2
  {
    assert ExecOk(s, e) && !InSlot(s, e);
    JournalEnds(s.execs[e].journal);
    if HasCommit(s, e) {
      var i :| 0 <= i < |s.commits| && s.commits[i].exec == e;
      CommitCounts(s.commits, i);
    }
    RecordEnds(s.execs, e, End(false), e);
  }

  // ---- exactly once ------------------------------------------------------------------------------

  lemma {:induction false} Uneven(execs: seq<Exec>) returns (e: nat)
    requires TotalEnds(execs) != |execs|
    ensures e < |execs| && Ends(execs[e].journal) != 1
  {
    var n := |execs| - 1;
    if Ends(execs[n].journal) != 1 {
      e := n;
    } else {
      e := Uneven(execs[..n]);
    }
  }

  /** The first step that is not orderly spoils an execution for good. */
  lemma {:induction false} DisorderShows(s: State, steps: seq<Step>, t: State) returns (e: nat)
    requires Inv(s) && Lost(s) >= 0 && IsRun(s, steps, t) && Quiet(t) && !OrderlyRun(s, steps)
    ensures e < |t.execs| && Ends(t.execs[e].journal) != 1
    decreases |steps|
  {
    var step, s', rest := steps[0], Apply(s, steps[0]), steps[1..];
    InvIsBookkept(s);
    StepLoses(s, step);
    if Orderly(s, step) {
      StepKeepsInv(s, step);
      e := DisorderShows(s', rest, t);
    } else if step.KernelDone? {
      e := step.exec;
      EndedTwice(s, e);
      RunDue(s', rest, t, e);
    } else {
      StepKeepsBooks(s, step);
      RunLoses(s', rest, t);
      QuietLost(t);
      e := Uneven(t.execs);
    }
  }

  lemma AllFinished(t: State, e: nat)
    requires Inv(t) && Quiet(t) && e < |t.execs|
    ensures Finished(t.execs[e].journal) && Ends(t.execs[e].journal) == 1
  {
    assert ExecOk(t, e);
    JournalEnds(t.execs[e].journal);
  }

  /** Over every interleaving that comes to rest: every execution started is ended exactly once if and only if every
      run took an empty slot and came back to an empty slot or its own.  Each is then ended with the verdict of its
      terminal span if one was routed to it, and unsuccessfully otherwise. */
  lemma EndedExactlyOnce(steps: seq<Step>, t: State)
    requires IsRun(INITIAL, steps, t) && Quiet(t)
    ensures (forall e :: 0 <= e < |t.execs| ==> Ends(t.execs[e].journal) == 1) <==> OrderlyRun(INITIAL, steps)
    ensures OrderlyRun(INITIAL, steps) ==> forall e :: 0 <= e < |t.execs| ==> Finished(t.execs[e].journal)
  {
    if OrderlyRun(INITIAL, steps) {
      RunKeepsInv(INITIAL, steps, t);
      forall e | 0 <= e < |t.execs| ensures Finished(t.execs[e].journal) && Ends(t.execs[e].journal) == 1 {
        AllFinished(t, e);
      }
    } else {
      var e := DisorderShows(INITIAL, steps, t);
    }
  }

  // ---- the restart premise -----------------------------------------------------------------------

  /** The editor starts a cell only when its previous `runOne` has returned. */
  predicate Waits(s: State, step: Step) {
    step.StartCell? ==>
      forall e :: 0 <= e < |s.execs| && s.execs[e].cell == step.cell ==> s.execs[e].phase == Returned
  }

  ghost predicate WaitingRun(s: State, steps: seq<Step>)
    decreases |steps|
  {
    steps != [] && Enabled(s, steps[0]) ==> Waits(s, steps[0]) && WaitingRun(Apply(s, steps[0]), steps[1..])
  }

  /** At most one execution per cell has not returned. */
  ghost predicate OneLivePerCell(s: State) {
    forall d, e :: 0 <= d < e < |s.execs| && s.execs[d].cell == s.execs[e].cell ==>
      s.execs[d].phase == Returned || s.execs[e].phase == Returned
  }

  lemma OneLiveIsOrderly(s: State, step: Step)
    requires Bookkept(s) && OneLivePerCell(s) && Enabled(s, step)
    ensures Orderly(s, step)
  {
    if (step.ClearDone? || step.KernelDone?) && s.execs[step.exec].cell in s.inflight {
      var d := s.inflight[s.execs[step.exec].cell];
      assert s.execs[d].phase == Running && s.execs[d].cell == s.execs[step.exec].cell;
    }
  }

  lemma StepKeepsOneLive(s: State, step: Step)
    requires OneLivePerCell(s) && Enabled(s, step) && Waits(s, step)
    ensures OneLivePerCell(Apply(s, step))
  {
    var t := Apply(s, step);
    StepGrows(s, step);
    forall d, e | 0 <= d < e < |t.execs| && t.execs[d].cell == t.execs[e].cell
      ensures t.execs[d].phase == Returned || t.execs[e].phase == Returned
    {
      ExecGoesOn(s, step, d);
      if e < |s.execs| {
        ExecGoesOn(s, step, e);
        assert s.execs[d].phase == Returned || s.execs[e].phase == Returned;
      } else {
        assert s.execs[d].phase == Returned;
      }
    }
  }

  predicate GoesOn(was: Exec, now: Exec) {
    now.cell == was.cell && (was.phase == Returned ==> now.phase == Returned)
  }

  lemma RecordGoesOn(execs: seq<Exec>, f: nat, act: Act, e: nat)
    requires e < |execs|
    ensures Record(execs, f, act)[e].cell == execs[e].cell && Record(execs, f, act)[e].phase == execs[e].phase
  {
  }

  lemma ExecGoesOn(s: State, step: Step, e: nat)
    requires Enabled(s, step) && e < |s.execs|
    ensures |Apply(s, step).execs| >= |s.execs| && GoesOn(s.execs[e], Apply(s, step).execs[e])
  {
    match step
    case StartCell(_) =>
    case ClearDone(f) => RecordGoesOn(s.execs, f, Cleared, e);
    case Emit(p) =>
      if Classify(p) != Dropped && FindExec(s, p.spanId).Some? {
        RecordGoesOn(s.execs, FindExec(s, p.spanId).value, Output(p), e);
        RecordGoesOn(s.execs, FindExec(s, p.spanId).value, Final(p), e);
      }
    case CommitDone(i) =>
      RecordGoesOn(s.execs, s.commits[i].exec, End(s.commits[i].span.Payload? && s.commits[i].span.ok), e);
    case KernelDone(f) => RecordGoesOn(s.execs, f, End(false), e);
    case Bind(_, _) =>
  }

  /** Only a start adds an execution. */
  lemma StepGrows(s: State, step: Step)
    requires Enabled(s, step)
    ensures |Apply(s, step).execs| == |s.execs| + (if step.StartCell? then 1 else 0)
    ensures step.StartCell? ==> Apply(s, step).execs[|s.execs|].cell == step.cell
  {
  }

  /** If no cell is restarted before its previous `runOne` returned, the run is orderly, whatever else happens. */
  lemma {:induction false} WaitingIsOrderly(s: State, steps: seq<Step>, t: State)
    requires Bookkept(s) && OneLivePerCell(s) && IsRun(s, steps, t) && WaitingRun(s, steps)
    ensures OrderlyRun(s, steps)
    decreases |steps|
  {
    if steps != [] {
      OneLiveIsOrderly(s, steps[0]);
      StepKeepsBooks(s, steps[0]);
      StepKeepsOneLive(s, steps[0]);
      WaitingIsOrderly(Apply(s, steps[0]), steps[1..], t);
    }
  }

  /** So in every such interleaving that comes to rest each execution is ended exactly once. */
  lemma WaitingEndsOnce(steps: seq<Step>, t: State, e: nat)
    requires IsRun(INITIAL, steps, t) && WaitingRun(INITIAL, steps) && Quiet(t) && e < |t.execs|
    ensures Finished(t.execs[e].journal) && Ends(t.execs[e].journal) == 1
  {
    WaitingIsOrderly(INITIAL, steps, t);
    EndedExactlyOnce(steps, t);
  }

  /** A cell restarted while its `runOne` is still waiting: both calls return, and the second execution is
      never ended. */
  lemma RestartLosesEnd(c: CellKey)
    ensures var s2 := Apply(Apply(INITIAL, StartCell(c)), ClearDone(0));
      var s3 := Apply(s2, StartCell(c));
      var s6 := Apply(Apply(Apply(s3, ClearDone(1)), KernelDone(0)), KernelDone(1));
      !Waits(s2, StartCell(c)) && !Orderly(s3, ClearDone(1)) && Quiet(s6) && Ends(s6.execs[1].journal) == 0
  {
    var live := Exec(c, Running, [Start, Cleared]);
    var s1 := Apply(INITIAL, StartCell(c));
    assert s1.execs == [Exec(c, Clearing, [Start])];
    var s2 := Apply(s1, ClearDone(0));
    assert [Start] + [Cleared] == [Start, Cleared];
    assert s2.execs == [live];
    var s3 := Apply(s2, StartCell(c));
    assert s3.execs == [live, Exec(c, Clearing, [Start])];
    var s4 := Apply(s3, ClearDone(1));
    assert s4.execs == [live, live] && s4.inflight == map[c := 1];
    NoEnds([Start, Cleared]);
  }
}
