/**
  Who ends a cell execution (extension/src/notebook/controller.ts, with the run-MIME classifier
  of extension/src/messaging/router.ts).

  A run starts an execution, clears its output, takes the cell's slot in `inflight` and awaits
  the kernel.  A terminal span claims the slot synchronously and ends the execution later, once
  its own output has been appended; a kernel that returns or throws while the slot is still
  taken ends the execution unsuccessfully.  All of this interleaves; the journal of an
  execution lists the calls it received.
 */
module CellExecution {
  import opened Common

  type CellKey = string

  /** A run payload as the classifier sees it; absent and empty fields are kept apart. */
  datatype Payload =
    | NotObject
    | Payload(event: bool, spanId: Option<string>, endTime: Option<string>, ok: bool)

  datatype Class = Dropped | Started | Evented | Completed

  /** One call on a cell execution, in the order it was received. */
  datatype Act = Start | Cleared | Output(payload: Payload) | Final(span: Payload) | End(ok: bool)

  /** Where `runOne` stands for this execution. */
  datatype Phase = Clearing | Running | Returned

  datatype Exec = Exec(cell: CellKey, phase: Phase, journal: seq<Act>)

  /** A claimed execution whose closing output is still being appended. */
  datatype Commit = Commit(exec: nat, span: Payload)

  datatype State = State(
    execs: seq<Exec>,
    inflight: map<CellKey, nat>,
    bound: map<string, CellKey>,
    commits: seq<Commit>)

  datatype Step =
    | StartCell(cell: CellKey)
    | ClearDone(exec: nat)
    | Emit(payload: Payload)
    | CommitDone(index: nat)
    | KernelDone(exec: nat) // the kernel call returned or threw
    | Bind(spanId: string, cell: CellKey)

  const INITIAL := State([], map[], map[], [])

  // ---- the steps -------------------------------------------------------------------------

  /** The run-MIME classifier: events first, then spans with an id, closed or open. */
  function Classify(p: Payload): Class {
    if p.NotObject? then Dropped
    else if p.event then Evented
    else if p.spanId.None? || p.spanId.value == "" then Dropped
    else if p.endTime.Some? && p.endTime.value != "" then Completed
    else Started
  }

  lemma OnlyKey(m: map<CellKey, nat>, a: CellKey, b: CellKey)
    requires |m| == 1 && a in m && b in m
    ensures a == b
  {
    var rest := m.Keys - {a};
    assert |rest| == 0;
  }

  function Only(m: map<CellKey, nat>): (e: nat)
    requires |m| == 1
    ensures exists k :: k in m && m[k] == e
  {
    assert m.Keys != {};
    assert forall a, b :: a in m && b in m ==> a == b by {
      forall a, b | a in m && b in m ensures a == b { OnlyKey(m, a, b); }
    }
    var k :| k in m.Keys;
    m[k]
  }

  /** The execution a span belongs to: by binding, else the only one in flight. */
  function FindExec(s: State, spanId: Option<string>): Option<nat> {
    if spanId.Some? && spanId.value in s.bound then
      var cell := s.bound[spanId.value];
      if cell in s.inflight then Some(s.inflight[cell]) else None
    else if |s.inflight| == 1 then Some(Only(s.inflight))
    else None
  }

  function Record(execs: seq<Exec>, e: nat, act: Act): (r: seq<Exec>)
    ensures |r| == |execs|
  {
    if e < |execs| then execs[e := execs[e].(journal := execs[e].journal + [act])] else execs
  }

  function WithoutExec(m: map<CellKey, nat>, e: nat): map<CellKey, nat> {
    map k | k in m && m[k] != e :: m[k]
  }

  function Append(s: State, p: Payload): State
    requires p.Payload?
  {
    var e := FindExec(s, p.spanId);
    if e.None? then s else s.(execs := Record(s.execs, e.value, Output(p)))
  }

  function Claim(s: State, p: Payload): State
    requires p.Payload?
  {
    var e := FindExec(s, p.spanId);
    if e.None? then s
    else s.(execs := Record(s.execs, e.value, Final(p)),
            inflight := WithoutExec(s.inflight, e.value),
            commits := s.commits + [Commit(e.value, p)])
  }

  function Enabled(s: State, step: Step): bool {
    match step
    case ClearDone(e) => e < |s.execs| && s.execs[e].phase == Clearing
    case KernelDone(e) => e < |s.execs| && s.execs[e].phase == Running
    case CommitDone(i) => i < |s.commits|
    case _ => true
  }

  function Apply(s: State, step: Step): State
    requires Enabled(s, step)
  {
    match step
    case StartCell(cell) => s.(execs := s.execs + [Exec(cell, Clearing, [Start])])
    case ClearDone(e) =>
      s.(execs := Record(s.execs, e, Cleared)[e := Record(s.execs, e, Cleared)[e].(phase := Running)],
         inflight := s.inflight[s.execs[e].cell := e])
    case Emit(p) =>
      (match Classify(p)
       case Dropped => s
       case Completed => Claim(s, p)
       case _ => Append(s, p))
    case CommitDone(i) =>
      var c := s.commits[i];
      s.(execs := Record(s.execs, c.exec, End(c.span.Payload? && c.span.ok)),
         bound := if c.span.Payload? && c.span.spanId.Some? then s.bound - {c.span.spanId.value} else s.bound,
         commits := s.commits[..i] + s.commits[i + 1..])
    case KernelDone(e) =>
      var cell := s.execs[e].cell;
      var ended := if cell in s.inflight then Record(s.execs, e, End(false)) else s.execs;
      s.(execs := ended[e := ended[e].(phase := Returned)], inflight := s.inflight - {cell})
    case Bind(spanId, cell) => s.(bound := s.bound[spanId := cell])
  }

  // ---- the controller --------------------------------------------------------------------

  class Controller {
    var inflight: map<CellKey, nat>
    var cellByCorrelation: map<string, CellKey>
    var execs: seq<Exec>     // the editor's execution objects
    var commits: seq<Commit> // closing appends still awaited

    ghost function View(): State
      reads this
    {
      State(execs, inflight, cellByCorrelation, commits)
    }

    constructor ()
      ensures View() == INITIAL
    {
      inflight, cellByCorrelation, execs, commits := map[], map[], [], [];
    }

    /** `runOne` up to the await of `clearOutput`. */
    method BeginRun(cell: CellKey) returns (exec: nat)
      modifies this
      ensures exec == |old(execs)| && View() == Apply(old(View()), StartCell(cell))
    {
      exec := |execs|;
      execs := execs + [Exec(cell, Clearing, [Start])];
    }

    /** `runOne` between `clearOutput` and the await of the kernel: take the slot. */
    method TakeSlot(exec: nat)
      requires Enabled(View(), ClearDone(exec))
      modifies this
      ensures View() == Apply(old(View()), ClearDone(exec))
    {
      var x := execs[exec];
      execs := execs[exec := x.(journal := x.journal + [Cleared], phase := Running)];
      inflight := inflight[x.cell := exec];
    }

    /** `runOne` after the kernel call, on either path. */
    method FinishRun(exec: nat)
      requires Enabled(View(), KernelDone(exec))
      modifies this
      ensures View() == Apply(old(View()), KernelDone(exec))
    {
      var x := execs[exec];
      if x.cell in inflight {
        x := x.(journal := x.journal + [End(false)]);
        inflight := inflight - {x.cell};
      }
      execs := execs[exec := x.(phase := Returned)];
      assert inflight == old(inflight) - {x.cell};
    }

    /** The sink: classify the payload and call the matching observer hook. */
    method RouteRunMime(p: Payload)
      requires SlotsNameTheirCell(View())
      modifies this
      ensures View() == Apply(old(View()), Emit(p))
    {
      if p.NotObject? {
        return;
      }
      if p.event {
        OnRunOutput(p);
        return;
      }
      if p.spanId.None? || p.spanId.value == "" {
        return;
      }
      if p.endTime.Some? && p.endTime.value != "" {
        OnRunComplete(p);
      } else {
        OnRunOutput(p);
      }
    }

    method FindExecForCorrelation(spanId: Option<string>) returns (e: Option<nat>)
      ensures e == FindExec(View(), spanId)
    {
      if spanId.Some? && spanId.value in cellByCorrelation {
        var cell := cellByCorrelation[spanId.value];
        return if cell in inflight then Some(inflight[cell]) else None;
      }
      if |inflight| == 1 {
        return Some(Only(inflight));
      }
      return None;
    }

    /** `onRunStart` and `onRunEvent`: append one output. */
    method OnRunOutput(p: Payload)
      requires p.Payload?
      modifies this
      ensures View() == Append(old(View()), p)
    {
      var e := FindExecForCorrelation(p.spanId);
      if e.Some? {
        execs := Record(execs, e.value, Output(p));
      }
    }

    /** `onRunComplete`: scan for the slot that holds the execution and free it before awaiting. */
    method OnRunComplete(p: Payload)
      requires p.Payload? && SlotsNameTheirCell(View())
      modifies this
      ensures View() == Claim(old(View()), p)
    {
      var e := FindExecForCorrelation(p.spanId);
      if e.None? {
        return;
      }
      var todo := inflight.Keys;
      while todo != {}
        invariant inflight == old(inflight) && todo <= inflight.Keys
        invariant forall k :: k in inflight && k !in todo ==> inflight[k] != e.value
        invariant execs == old(execs) && commits == old(commits) && cellByCorrelation == old(cellByCorrelation)
        decreases todo
      {
        var k :| k in todo;
        if inflight[k] == e.value {
          assert forall other :: other in inflight && inflight[other] == e.value ==> other == k;
          inflight := inflight - {k};
          break;
        }
        todo := todo - {k};
      }
      assert inflight == WithoutExec(old(inflight), e.value);
      execs := Record(execs, e.value, Final(p));
      commits := commits + [Commit(e.value, p)];
    }

    /** The closing append settled, either way: end the execution and drop the binding. */
    method CommitClose(i: nat)
      requires Enabled(View(), CommitDone(i))
      modifies this
      ensures View() == Apply(old(View()), CommitDone(i))
    {
      var c := commits[i];
      execs := Record(execs, c.exec, End(c.span.Payload? && c.span.ok));
      if c.span.Payload? && c.span.spanId.Some? {
        cellByCorrelation := cellByCorrelation - {c.span.spanId.value};
      }
      commits := commits[..i] + commits[i + 1..];
    }

    method BindCorrelation(spanId: string, cell: CellKey)
      modifies this
      ensures View() == Apply(old(View()), Bind(spanId, cell))
    {
      cellByCorrelation := cellByCorrelation[spanId := cell];
    }
  }

  // ---- what every run keeps ----------------------------------------------------------------

  /** A slot always holds an execution of its own cell; so no execution has two slots. */
  predicate SlotsNameTheirCell(s: State) {
    forall k :: k in s.inflight ==> s.inflight[k] < |s.execs| && s.execs[s.inflight[k]].cell == k
  }

  /** A terminal span, told by its fields: no event, an id, an end time. */
  predicate Terminal(p: Payload) {
    && p.Payload? && !p.event
    && p.spanId.Some? && p.spanId.value != "" && p.endTime.Some? && p.endTime.value != ""
  }

  /** An emission that is shown and closes nothing: an event, or a span with an id and no end time. */
  predicate Interim(p: Payload) {
    p.Payload? && (p.event
      || (p.spanId.Some? && p.spanId.value != "" && (p.endTime.Some? ==> p.endTime.value == "")))
  }

  /** Started and cleared, then only outputs, none of them a terminal span. */
  predicate Open(j: seq<Act>) {
    && |j| >= 2 && j[0] == Start && j[1] == Cleared
    && forall i :: 2 <= i < |j| ==> j[i].Output? && Interim(j[i].payload)
  }

  /** An open journal closed by one terminal span. */
  predicate Claimed(j: seq<Act>) {
    |j| >= 3 && Open(j[..|j| - 1]) && j[|j| - 1].Final? && Terminal(j[|j| - 1].span)
  }

  /** Ended once: unsuccessfully with no terminal span, or with the verdict of its terminal span. */
  predicate Finished(j: seq<Act>) {
    |j| >= 3 && j[|j| - 1].End? &&
    var k := j[..|j| - 1];
    (Open(k) && !j[|j| - 1].ok)
    || (Claimed(k) && j[|j| - 1].ok == k[|k| - 1].span.ok)
  }

  predicate InSlot(s: State, e: nat)
    requires e < |s.execs|
  {
    s.execs[e].cell in s.inflight && s.inflight[s.execs[e].cell] == e
  }

  ghost predicate HasCommit(s: State, e: nat) {
    exists i :: 0 <= i < |s.commits| && s.commits[i].exec == e
  }

  /** Which journals go with a phase, holding the slot, and a closing append under way. */
  predicate Fits(x: Exec, slot: bool, commit: bool) {
    || (x.phase == Clearing && x.journal == [Start] && !slot && !commit)
    || (x.phase == Running && Open(x.journal) && slot && !commit)
    || (x.phase != Clearing && Claimed(x.journal) && !slot && commit)
    || (x.phase != Clearing && Finished(x.journal) && !slot && !commit)
  }

  ghost predicate ExecOk(s: State, e: nat)
    requires e < |s.execs|
  {
    Fits(s.execs[e], InSlot(s, e), HasCommit(s, e))
  }

  ghost predicate CommitOk(s: State, i: nat)
    requires i < |s.commits|
  {
    var c := s.commits[i];
    && c.exec < |s.execs|
    && Claimed(s.execs[c.exec].journal)
    && s.execs[c.exec].journal[|s.execs[c.exec].journal| - 1] == Final(c.span)
  }

  ghost predicate Inv(s: State) {
    && SlotsNameTheirCell(s)
    && (forall e :: 0 <= e < |s.execs| ==> ExecOk(s, e))
    && (forall i :: 0 <= i < |s.commits| ==> CommitOk(s, i))
    && (forall i, j :: 0 <= i < j < |s.commits| ==> s.commits[i].exec != s.commits[j].exec)
  }

  /** A run takes an empty slot, and comes back to an empty slot or its own. */
  predicate Orderly(s: State, step: Step)
    requires Enabled(s, step)
  {
    match step
    case ClearDone(e) => s.execs[e].cell !in s.inflight
    case KernelDone(e) => s.execs[e].cell in s.inflight ==> s.inflight[s.execs[e].cell] == e
    case _ => true
  }

  lemma StepKeepsSlots(s: State, step: Step)
    requires SlotsNameTheirCell(s) && Enabled(s, step)
    ensures SlotsNameTheirCell(Apply(s, step))
  {
    match step
    case Emit(p) => EmitKeepsSlots(s, p);
    case CommitDone(i) =>
      var c := s.commits[i];
      RecordKeepsCells(s.execs, c.exec, End(c.span.Payload? && c.span.ok));
    case KernelDone(e) => RecordKeepsCells(s.execs, e, End(false));
    case ClearDone(e) => RecordKeepsCells(s.execs, e, Cleared);
    case _ =>
  }

  lemma RecordKeepsCells(execs: seq<Exec>, e: nat, act: Act)
    ensures forall i :: 0 <= i < |execs| ==> Record(execs, e, act)[i].cell == execs[i].cell
  {
  }

  lemma EmitKeepsSlots(s: State, p: Payload)
    requires SlotsNameTheirCell(s)
    ensures SlotsNameTheirCell(Apply(s, Emit(p)))
  {
    if Classify(p) != Dropped && FindExec(s, p.spanId).Some? {
      var f := FindExec(s, p.spanId).value;
      RecordKeepsCells(s.execs, f, Final(p));
      RecordKeepsCells(s.execs, f, Output(p));
    }
  }

  lemma FoundIsInSlot(s: State, spanId: Option<string>)
    requires SlotsNameTheirCell(s) && FindExec(s, spanId).Some?
    ensures var e := FindExec(s, spanId).value; e < |s.execs| && InSlot(s, e)
  {
  }

  // Where an emission goes, told by its fields.

  /** The execution in the slot of the cell bound to the span, or, for a span not bound, the only one in flight. */
  ghost predicate Belongs(s: State, spanId: Option<string>, e: nat) {
    if spanId.Some? && spanId.value in s.bound then
      s.bound[spanId.value] in s.inflight && s.inflight[s.bound[spanId.value]] == e
    else exists cell :: s.inflight == map[cell := e]
  }

  lemma FoundExactly(s: State, spanId: Option<string>, e: nat)
    ensures FindExec(s, spanId) == Some(e) <==> Belongs(s, spanId, e)
  {
    if |s.inflight| == 1 {
      var cell :| cell in s.inflight && s.inflight[cell] == Only(s.inflight);
      forall k | k in s.inflight ensures k == cell { OnlyKey(s.inflight, k, cell); }
      assert s.inflight == map[cell := Only(s.inflight)];
      assert Only(s.inflight) == e ==> s.inflight == map[cell := e];
    }
  }

  function Noted(execs: seq<Exec>, e: nat, act: Act): seq<Exec>
    requires e < |execs|
  {
    execs[e := Exec(execs[e].cell, execs[e].phase, execs[e].journal + [act])]
  }

  predicate Closes(s: State, p: Payload, e: nat, t: State) {
    && e < |s.execs| && InSlot(s, e)
    && t == s.(execs := Noted(s.execs, e, Final(p)), inflight := s.inflight - {s.execs[e].cell},
               commits := s.commits + [Commit(e, p)])
  }

  predicate Shows(s: State, p: Payload, e: nat, t: State) {
    e < |s.execs| && InSlot(s, e) && t == s.(execs := Noted(s.execs, e, Output(p)))
  }

  /** A terminal span closes the execution it belongs to: its slot is freed and its closing append queued.  An interim
      emission adds one output to it and changes nothing else.  Everything else changes nothing. */
  lemma RoutedExactly(s: State, p: Payload)
    requires SlotsNameTheirCell(s)
    ensures var t := Apply(s, Emit(p));
      && (Terminal(p) ==> forall e: nat :: Belongs(s, p.spanId, e) ==> Closes(s, p, e, t))
      && (Interim(p) ==> forall e: nat :: Belongs(s, p.spanId, e) ==> Shows(s, p, e, t))
      && (t != s ==> (Terminal(p) || Interim(p)) && exists e: nat :: Belongs(s, p.spanId, e))
  {
    if p.Payload? {
      forall e: nat ensures FindExec(s, p.spanId) == Some(e) <==> Belongs(s, p.spanId, e) {
        FoundExactly(s, p.spanId, e);
      }
      if FindExec(s, p.spanId).Some? {
        FoundIsInSlot(s, p.spanId);
        var f := FindExec(s, p.spanId).value;
        assert Belongs(s, p.spanId, f);
        assert WithoutExec(s.inflight, f) == s.inflight - {s.execs[f].cell};
      }
    }
  }

  /** A span is bound from the moment the kernel client binds it until its closing append settles. */
  lemma BoundExactly(s: State, step: Step, id: string, cell: CellKey)
    requires Inv(s) && Enabled(s, step)
    ensures BoundTo(Apply(s, step), id, cell) <==>
              (step == Bind(id, cell)
               || (BoundTo(s, id, cell) && !(step.Bind? && step.spanId == id) && !Settles(s, step, id)))
  {
    if step.CommitDone? {
      assert CommitOk(s, step.index);
    }
  }

  predicate BoundTo(s: State, id: string, cell: CellKey) {
    id in s.bound && s.bound[id] == cell
  }

  /** The closing append of a span with this id settles. */
  predicate Settles(s: State, step: Step, id: string)
    requires Enabled(s, step)
  {
    step.CommitDone? && s.commits[step.index].span.Payload? && s.commits[step.index].span.spanId == Some(id)
  }

  lemma StartKeepsInv(s: State, cell: CellKey)
    requires Inv(s)
    ensures Inv(Apply(s, StartCell(cell)))
  {
    var t := Apply(s, StartCell(cell));
    forall e | 0 <= e < |t.execs| ensures ExecOk(t, e) {
      if e < |s.execs| {
        assert ExecOk(s, e) && (HasCommit(s, e) <==> HasCommit(t, e));
      } else {
        forall i | 0 <= i < |s.commits| ensures s.commits[i].exec != e { assert CommitOk(s, i); }
      }
    }
    forall i | 0 <= i < |t.commits| ensures CommitOk(t, i) { assert CommitOk(s, i); }
  }

  lemma ClearKeepsInv(s: State, e: nat)
    requires Inv(s) && Enabled(s, ClearDone(e)) && Orderly(s, ClearDone(e))
    ensures Inv(Apply(s, ClearDone(e)))
  {
    var t := Apply(s, ClearDone(e));
    assert ExecOk(s, e);
    forall d | 0 <= d < |t.execs| ensures ExecOk(t, d) {
      assert ExecOk(s, d) && (HasCommit(s, d) <==> HasCommit(t, d));
    }
    forall i | 0 <= i < |t.commits| ensures CommitOk(t, i) { assert CommitOk(s, i); }
  }

  // How a journal may grow.

  lemma OpenGrows(j: seq<Act>, p: Payload)
    requires Open(j)
    ensures Interim(p) ==> Open(j + [Output(p)])
    ensures Terminal(p) ==> Claimed(j + [Final(p)])
    ensures Finished(j + [End(false)])
  {
    assert (j + [Final(p)])[..|j|] == j && (j + [End(false)])[..|j|] == j;
  }

  lemma ClaimedEnds(j: seq<Act>, span: Payload)
    requires Claimed(j) && j[|j| - 1] == Final(span)
    ensures Finished(j + [End(span.Payload? && span.ok)])
  {
    assert (j + [End(span.Payload? && span.ok)])[..|j|] == j;
  }

  // An output is appended.

  lemma AppendKeepsInv(s: State, p: Payload)
    requires Inv(s) && Interim(p)
    ensures Inv(Append(s, p))
  {
    var t := Append(s, p);
    if FindExec(s, p.spanId).Some? {
      FoundIsInSlot(s, p.spanId);
      var f := FindExec(s, p.spanId).value;
      assert ExecOk(s, f);
      OpenGrows(s.execs[f].journal, p);
      forall e | 0 <= e < |t.execs| ensures ExecOk(t, e) {
        assert ExecOk(s, e) && (HasCommit(s, e) <==> HasCommit(t, e));
      }
      forall i | 0 <= i < |t.commits| ensures CommitOk(t, i) {
        assert CommitOk(s, i) && HasCommit(s, s.commits[i].exec);
      }
    }
  }

  // A terminal span claims the slot.

  lemma ClaimKeepsInv(s: State, p: Payload)
    requires Inv(s) && Terminal(p)
    ensures Inv(Claim(s, p))
  {
    if FindExec(s, p.spanId).Some? {
      FoundIsInSlot(s, p.spanId);
      var t, f := Claim(s, p), FindExec(s, p.spanId).value;
      forall e | 0 <= e < |t.execs| ensures ExecOk(t, e) {
        ClaimExecOk(s, p, f, e);
      }
      assert !HasCommit(s, f) by { assert ExecOk(s, f); }
      forall i | 0 <= i < |t.commits| ensures CommitOk(t, i) {
        ClaimCommitOk(s, p, f, i);
      }
    }
  }

  lemma ClaimExecOk(s: State, p: Payload, f: nat, e: nat)
    requires Terminal(p) && FindExec(s, p.spanId) == Some(f) && SlotsNameTheirCell(s)
    requires f < |s.execs| && InSlot(s, f) && ExecOk(s, f) && e < |s.execs| && ExecOk(s, e)
    ensures ExecOk(Claim(s, p), e)
  {
    var t := Claim(s, p);
    assert t.commits[|s.commits|].exec == f;
    if e == f {
      OpenGrows(s.execs[f].journal, p);
    } else {
      assert HasCommit(s, e) <==> HasCommit(t, e) by {
        if HasCommit(s, e) {
          var i :| 0 <= i < |s.commits| && s.commits[i].exec == e;
          assert t.commits[i].exec == e;
        }
      }
      assert InSlot(t, e) <==> InSlot(s, e);
    }
  }

  lemma ClaimCommitOk(s: State, p: Payload, f: nat, i: nat)
    requires Terminal(p) && FindExec(s, p.spanId) == Some(f) && f < |s.execs| && InSlot(s, f) && ExecOk(s, f)
    requires i <= |s.commits| && (i < |s.commits| ==> CommitOk(s, i))
    ensures CommitOk(Claim(s, p), i)
  {
    OpenGrows(s.execs[f].journal, p);
    if i < |s.commits| {
      assert HasCommit(s, s.commits[i].exec);
    }
  }

  lemma EmitKeepsInv(s: State, p: Payload)
    requires Inv(s)
    ensures Inv(Apply(s, Emit(p)))
  {
    match Classify(p)
    case Dropped =>
    case Completed => ClaimKeepsInv(s, p);
    case _ => AppendKeepsInv(s, p);
  }

  // A closing append settles.

  lemma CommitKeepsInv(s: State, k: nat)
    requires Inv(s) && Enabled(s, CommitDone(k))
    ensures Inv(Apply(s, CommitDone(k)))
  {
    var t, f := Apply(s, CommitDone(k)), s.commits[k].exec;
    assert CommitOk(s, k);
    forall i | 0 <= i < |t.commits| ensures t.commits[i] == s.commits[if i < k then i else i + 1] {
    }
    forall i | 0 <= i < |t.commits| ensures CommitOk(t, i) {
      assert CommitOk(s, if i < k then i else i + 1);
    }
    forall e | 0 <= e < |t.execs| ensures ExecOk(t, e) {
      assert ExecOk(s, e);
      CommitExecOk(s, k, e);
    }
  }

  lemma CommitExecOk(s: State, k: nat, e: nat)
    requires Enabled(s, CommitDone(k)) && CommitOk(s, k) && e < |s.execs| && ExecOk(s, e)
    requires forall i, j :: 0 <= i < j < |s.commits| ==> s.commits[i].exec != s.commits[j].exec
    ensures ExecOk(Apply(s, CommitDone(k)), e)
  {
    var t, f := Apply(s, CommitDone(k)), s.commits[k].exec;
    CommitGone(s, k, e);
    assert InSlot(t, e) <==> InSlot(s, e);
    if e == f {
      ClaimedEnds(s.execs[f].journal, s.commits[k].span);
    } else {
      assert t.execs[e] == s.execs[e];
    }
  }

  /** Only the execution of the settled append has lost its commit. */
  lemma CommitGone(s: State, k: nat, e: nat)
    requires k < |s.commits|
    requires forall i, j :: 0 <= i < j < |s.commits| ==> s.commits[i].exec != s.commits[j].exec
    ensures HasCommit(Apply(s, CommitDone(k)), e) <==> HasCommit(s, e) && e != s.commits[k].exec
  {
    var t := Apply(s, CommitDone(k));
    assert forall i :: 0 <= i < |t.commits| ==> t.commits[i] == s.commits[if i < k then i else i + 1];
    if HasCommit(s, e) && e != s.commits[k].exec {
      var i :| 0 <= i < |s.commits| && s.commits[i].exec == e;
      assert t.commits[if i < k then i else i - 1].exec == e;
    }
  }

  // The kernel call comes back.

  lemma KernelKeepsInv(s: State, f: nat)
    requires Inv(s) && Enabled(s, KernelDone(f)) && Orderly(s, KernelDone(f))
    ensures Inv(Apply(s, KernelDone(f)))
  {
    var t := Apply(s, KernelDone(f));
    assert ExecOk(s, f);
    forall e | 0 <= e < |t.execs| ensures ExecOk(t, e) {
      assert ExecOk(s, e);
      KernelExecOk(s, f, e);
    }
    forall i | 0 <= i < |t.commits| ensures CommitOk(t, i) {
      assert CommitOk(s, i) && HasCommit(s, s.commits[i].exec);
      assert ExecOk(s, s.commits[i].exec);
    }
  }

  lemma KernelExecOk(s: State, f: nat, e: nat)
    requires SlotsNameTheirCell(s) && Enabled(s, KernelDone(f)) && ExecOk(s, f)
    requires s.execs[f].cell in s.inflight ==> s.inflight[s.execs[f].cell] == f
    requires e < |s.execs| && ExecOk(s, e)
    ensures ExecOk(Apply(s, KernelDone(f)), e)
  {
    var t := Apply(s, KernelDone(f));
    assert HasCommit(s, e) <==> HasCommit(t, e);
    if e != f {
      assert t.execs[e] == s.execs[e];
      assert InSlot(t, e) <==> InSlot(s, e);
    } else if InSlot(s, f) {
      OpenGrows(s.execs[f].journal, NotObject);
      assert t.execs[f] == Exec(s.execs[f].cell, Returned, s.execs[f].journal + [End(false)]);
      assert !InSlot(t, f);
    } else {
      assert t.execs[f] == s.execs[f].(phase := Returned);
      assert !InSlot(t, f);
    }
  }

  /** One orderly step, of any kind, keeps the invariant. */
  lemma StepKeepsInv(s: State, step: Step)
    requires Inv(s) && Enabled(s, step) && Orderly(s, step)
    ensures Inv(Apply(s, step))
  {
    match step
    case StartCell(cell) => StartKeepsInv(s, cell);
    case ClearDone(e) => ClearKeepsInv(s, e);
    case Emit(p) => EmitKeepsInv(s, p);
    case CommitDone(i) => CommitKeepsInv(s, i);
    case KernelDone(e) => KernelKeepsInv(s, e);
    case Bind(spanId, cell) =>
      var t := Apply(s, step);
      forall e | 0 <= e < |t.execs| ensures ExecOk(t, e) {
        assert ExecOk(s, e) && (HasCommit(s, e) <==> HasCommit(t, e));
      }
      forall i | 0 <= i < |t.commits| ensures CommitOk(t, i) { assert CommitOk(s, i); }
  }

  // ---- whole runs ------------------------------------------------------------------------

  /** Any interleaving of the steps. */
  ghost predicate IsRun(s: State, steps: seq<Step>, t: State)
    decreases |steps|
  {
    if steps == [] then s == t else Enabled(s, steps[0]) && IsRun(Apply(s, steps[0]), steps[1..], t)
  }

  ghost predicate OrderlyRun(s: State, steps: seq<Step>)
    decreases |steps|
  {
    steps != [] && Enabled(s, steps[0]) ==> Orderly(s, steps[0]) && OrderlyRun(Apply(s, steps[0]), steps[1..])
  }

  lemma {:induction false} RunKeepsInv(s: State, steps: seq<Step>, t: State)
    requires Inv(s) && IsRun(s, steps, t) && OrderlyRun(s, steps)
    ensures Inv(t)
    decreases |steps|
  {
    if steps != [] {
      StepKeepsInv(s, steps[0]);
      RunKeepsInv(Apply(s, steps[0]), steps[1..], t);
    }
  }

  function Ends(j: seq<Act>): nat {
    if j == [] then 0 else Ends(j[..|j| - 1]) + if j[|j| - 1].End? then 1 else 0
  }

  lemma {:induction false} NoEnds(j: seq<Act>)
    requires forall i :: 0 <= i < |j| ==> !j[i].End?
    ensures Ends(j) == 0
  {
    if j != [] {
      NoEnds(j[..|j| - 1]);
    }
  }

  lemma JournalEnds(j: seq<Act>)
    ensures Open(j) || Claimed(j) || j == [Start] ==> Ends(j) == 0
    ensures Finished(j) ==> Ends(j) == 1
  {
    if Open(j) || j == [Start] {
      NoEnds(j);
    } else if Claimed(j) {
      NoEnds(j);
    } else if Finished(j) {
      NoEnds(j[..|j| - 1]);
    }
  }

  /** After a terminal span comes at most its end; after an end comes nothing. */
  predicate ClosedAfterClaim(j: seq<Act>) {
    forall a, b :: 0 <= a < b < |j| && (j[a].Final? || j[a].End?) ==> j[a].Final? && j[b].End?
  }

  lemma JournalCloses(j: seq<Act>)
    requires j == [Start] || Open(j) || Claimed(j) || Finished(j)
    ensures ClosedAfterClaim(j)
  {
    if Finished(j) {
      var k := j[..|j| - 1];
      assert forall i :: 0 <= i < |k| ==> j[i] == k[i];
      assert Claimed(k) ==> forall i :: 0 <= i < |k| - 1 ==> k[..|k| - 1][i] == j[i];
    } else if Claimed(j) {
      assert forall i :: 0 <= i < |j| - 1 ==> j[..|j| - 1][i] == j[i];
    }
  }

  /** In every state an orderly run reaches, no execution has been ended twice, and once it is claimed or ended it
      receives no further output and no second terminal span. */
  lemma EndedAtMostOnce(steps: seq<Step>, t: State, e: nat)
    requires IsRun(INITIAL, steps, t) && OrderlyRun(INITIAL, steps) && e < |t.execs|
    ensures Ends(t.execs[e].journal) <= 1
    ensures ClosedAfterClaim(t.execs[e].journal)
  {
    RunKeepsInv(INITIAL, steps, t);
    assert ExecOk(t, e);
    JournalEnds(t.execs[e].journal);
    JournalCloses(t.execs[e].journal);
  }

  /** Every `runOne` has returned and every closing append has settled. */
  predicate Quiet(t: State) {
    t.commits == [] && forall d :: 0 <= d < |t.execs| ==> t.execs[d].phase == Returned
  }

  function Work(execs: seq<Exec>): nat {
    if execs == [] then 0
    else Work(execs[..|execs| - 1])
         + match execs[|execs| - 1].phase case Clearing => 2 case Running => 1 case Returned => 0
  }

  lemma {:induction false} WorkDrops(a: seq<Exec>, b: seq<Exec>, e: nat)
    requires e < |a| == |b| && forall i :: 0 <= i < |a| && i != e ==> a[i].phase == b[i].phase
    requires (a[e].phase.Clearing? && b[e].phase.Running?) || (a[e].phase.Running? && b[e].phase.Returned?)
    ensures Work(b) < Work(a)
  {
    var n := |a| - 1;
    if e < n {
      WorkDrops(a[..n], b[..n], e);
    } else {
      WorkSame(a[..n], b[..n]);
    }
  }

  lemma {:induction false} WorkSame(a: seq<Exec>, b: seq<Exec>)
    requires |a| == |b| && forall i :: 0 <= i < |a| ==> a[i].phase == b[i].phase
    ensures Work(b) == Work(a)
  {
    if a != [] {
      WorkSame(a[..|a| - 1], b[..|a| - 1]);
    }
  }

  /** No state is stuck: returning kernels and settling appends always lead to a quiet state. */
  lemma {:induction false} CanFinish(s: State) returns (steps: seq<Step>, t: State)
    ensures IsRun(s, steps, t) && Quiet(t)
    decreases Work(s.execs) + |s.commits|
  {
    var step;
    if s.commits != [] {
      step := CommitDone(0);
      WorkSame(s.execs, Apply(s, step).execs);
    } else if e :| 0 <= e < |s.execs| && s.execs[e].phase != Returned {
      step := if s.execs[e].phase == Clearing then ClearDone(e) else KernelDone(e);
      WorkDrops(s.execs, Apply(s, step).execs, e);
    } else {
      return [], s;
    }
    var rest;
    rest, t := CanFinish(Apply(s, step));
    steps := [step] + rest;
    assert steps[1..] == rest;
  }
}
